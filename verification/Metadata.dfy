/** The Metaplex metadata account: a fixed head, three length-prefixed strings and a
    row of optional fields that must be stepped over to reach the collection key.
 */
module Metadata {
  import opened Orders
  import opened Arithmetic
  import opened Primes
  import opened Numerals
  import opened Base58

  /** The account as it was written. */
  datatype Account = Account(
    authority: seq<byte>,
    mint: seq<byte>,
    name: seq<byte>,
    symbol: seq<byte>,
    uri: seq<byte>,
    fee: seq<byte>,
    creators: Option<seq<seq<byte>>>,
    primarySaleHappened: byte,
    isMutable: byte,
    editionNonce: Option<byte>,
    tokenStandard: Option<byte>,
    collection: Option<(byte, seq<byte>)>)

  /** What the parser reports. `text` is what decoding and trimming make of bytes. */
  datatype Info = Info(mint: string, name: string, symbol: string, uri: string, collection: Option<string>)

  // ----- reading -----

  /** Four bytes at `pos`, least significant first. */
  function U32At(data: seq<byte>, pos: nat): nat
    requires pos + 4 <= |data|
  {
    LittleEndian(data[pos..pos + 4], 256)
  }

  /** A slice that may run past the end. */
  function Slice(data: seq<byte>, from: nat, length: nat): seq<byte> {
    if from >= |data| then [] else if from + length >= |data| then data[from..] else data[from..from + length]
  }

  /** The bytes of a length-prefixed string, and where it ends. */
  function ReadString(data: seq<byte>, pos: nat): (seq<byte>, nat) {
    if pos + 4 > |data| then ([], pos + 4)
    else
      var length := U32At(data, pos);
      (Slice(data, pos + 4, length), pos + 4 + length)
  }

  function SkipByte(data: seq<byte>, pos: nat): nat { if pos < |data| then pos + 1 else pos }

  function SkipCreators(data: seq<byte>, pos: nat): nat {
    if pos >= |data| then pos
    else if data[pos] != 0 && pos + 5 <= |data| then pos + 5 + U32At(data, pos + 1) * 34
    else pos + 1
  }

  /** A one-byte option: a flag, and the value if the flag is set. */
  function SkipOption(data: seq<byte>, pos: nat): nat {
    if pos < |data| && data[pos] != 0 then SkipByte(data, pos + 1) else SkipByte(data, pos)
  }

  function ReadCollection(data: seq<byte>, pos: nat): Option<seq<byte>> {
    if pos < |data| && data[pos] != 0 && pos + 34 <= |data| then Some(data[pos + 2..pos + 34]) else None
  }

  function SkipToCollection(data: seq<byte>, pos: nat): nat {
    var p := SkipCreators(data, pos);
    SkipOption(data, SkipOption(data, SkipByte(data, SkipByte(data, p))))
  }

  /** What the parser finds. */
  function Parsed(data: seq<byte>, text: seq<byte> -> string): Option<Info> {
    if |data| < 70 || data[0] != 4 then None
    else
      var (name, p) := ReadString(data, 65);
      var (symbol, q) := ReadString(data, p);
      var (uri, r) := ReadString(data, q);
      var collection := if r + 2 > |data| then None else ReadCollection(data, SkipToCollection(data, r + 2));
      Some(Info(Encoded(data[33..65]), text(name), text(symbol), text(uri),
                if collection.Some? then Some(Encoded(collection.value)) else None))
  }

  /** Steps over everything between the fee and the collection. */
  method SkipOptionals(data: seq<byte>, start: nat) returns (pos: nat)
    ensures pos == SkipToCollection(data, start)
  {
    hide U32At;
    pos := start;
    if pos < |data| {
      var creatorsPresent := data[pos];
      pos := pos + 1;
      if creatorsPresent != 0 && pos + 4 <= |data| {
        var creatorCount := U32At(data, pos);
        pos := pos + 4 + creatorCount * 34;
      }
    }
    assert pos == SkipCreators(data, start);
    hide SkipCreators;
    if pos < |data| {
      pos := pos + 1;
    }
    if pos < |data| {
      pos := pos + 1;
    }
    if pos < |data| {
      var editionNoncePresent := data[pos];
      pos := pos + 1;
      if editionNoncePresent != 0 && pos < |data| {
        pos := pos + 1;
      }
    }
    if pos < |data| {
      var tokenStandardPresent := data[pos];
      pos := pos + 1;
      if tokenStandardPresent != 0 && pos < |data| {
        pos := pos + 1;
      }
    }
  }

  /** The parser with its moving cursor. */
  method ParseMetadataAccount(data: seq<byte>, text: seq<byte> -> string) returns (info: Option<Info>)
    ensures info == Parsed(data, text)
  {
    hide ReadString, SkipToCollection, Encoded;
    if |data| < 70 {
      return None;
    }
    var pos := 0;
    var key := data[pos];
    pos := pos + 1;
    if key != 4 {
      return None;
    }
    pos := pos + 32;
    SliceInside(data, pos, 32);
    var mint := B58Encode(Slice(data, pos, 32));
    pos := pos + 32;
    var (name, p) := ReadString(data, pos);
    var (symbol, q) := ReadString(data, p);
    var (uri, r) := ReadString(data, q);
    pos := r;
    if pos + 2 > |data| {
      return Some(Info(mint, text(name), text(symbol), text(uri), None));
    }
    pos := pos + 2;
    pos := SkipOptionals(data, pos);
    var collection := None;
    if pos < |data| {
      var collectionPresent := data[pos];
      pos := pos + 1;
      if collectionPresent != 0 && pos + 33 <= |data| {
        pos := pos + 1;
        SliceInside(data, pos, 32);
        var encoded := B58Encode(Slice(data, pos, 32));
        collection := Some(encoded);
      }
    }
    info := Some(Info(mint, text(name), text(symbol), text(uri), collection));
  }

  // ----- writing -----

  predicate IsU32(n: nat) { n < Pow(256, 4) }

  function WriteString(s: seq<byte>): seq<byte> { LittleFixed(|s|, 4) + s }

  function Flatten(parts: seq<seq<byte>>): seq<byte> {
    if parts == [] then [] else parts[0] + Flatten(parts[1..])
  }

  function WriteCreators(creators: Option<seq<seq<byte>>>): seq<byte> {
    match creators
    case None => [0]
    case Some(list) => [1] + LittleFixed(|list|, 4) + Flatten(list)
  }

  function WriteOption(value: Option<byte>): seq<byte> {
    match value
    case None => [0]
    case Some(v) => [1, v]
  }

  function WriteCollection(collection: Option<(byte, seq<byte>)>): seq<byte> {
    match collection
    case None => [0]
    case Some(c) => [1, c.0] + c.1
  }

  /** The fields have the sizes the layout gives them. */
  ghost predicate IsWellSized(a: Account) {
    && |a.authority| == 32 && |a.mint| == 32 && |a.fee| == 2
    && IsU32(|a.name|) && IsU32(|a.symbol|) && IsU32(|a.uri|)
    && (a.creators.Some? ==> IsU32(|a.creators.value|) && forall c | c in a.creators.value :: |c| == 34)
    && (a.collection.Some? ==> |a.collection.value.1| == 32)
  }

  /** The part after the strings. */
  function WriteTail(a: Account): seq<byte> {
    WriteCreators(a.creators) + ([a.primarySaleHappened] + ([a.isMutable] + (WriteOption(a.editionNonce)
    + (WriteOption(a.tokenStandard) + WriteCollection(a.collection)))))
  }

  function WriteAccount(a: Account): seq<byte> {
    [4] + (a.authority + (a.mint + (WriteString(a.name) + (WriteString(a.symbol) + (WriteString(a.uri)
    + (a.fee + WriteTail(a)))))))
  }

  // ----- reading what was written -----

  /** `part` stands at `pos`. */
  ghost predicate At(data: seq<byte>, pos: nat, part: seq<byte>) {
    pos + |part| <= |data| && data[pos..pos + |part|] == part
  }

  lemma AtSplit(data: seq<byte>, pos: nat, a: seq<byte>, b: seq<byte>)
    requires At(data, pos, a + b)
    ensures At(data, pos, a) && At(data, pos + |a|, b)
  {
    var whole := data[pos..pos + |a + b|];
    assert whole[..|a|] == a && whole[|a|..] == b;
    assert data[pos..pos + |a|] == whole[..|a|];
    assert data[pos + |a|..pos + |a| + |b|] == whole[|a|..];
  }

  lemma AtByte(data: seq<byte>, pos: nat, b: byte, rest: seq<byte>)
    requires At(data, pos, [b] + rest)
    ensures pos < |data| && data[pos] == b && At(data, pos + 1, rest)
  {
    AtSplit(data, pos, [b], rest);
    assert data[pos..pos + 1][0] == b;
  }

  lemma SliceInside(data: seq<byte>, from: nat, length: nat)
    requires from + length <= |data|
    ensures Slice(data, from, length) == data[from..from + length]
  {}

  lemma ReadWritten(data: seq<byte>, pos: nat, s: seq<byte>)
    requires At(data, pos, WriteString(s)) && IsU32(|s|)
    ensures ReadString(data, pos) == (s, pos + |WriteString(s)|)
  {
    AtSplit(data, pos, LittleFixed(|s|, 4), s);
    LittleFixedValue(|s|, 4);
    SliceInside(data, pos + 4, |s|);
  }

  lemma {:induction false} FlattenLength(parts: seq<seq<byte>>)
    requires forall c | c in parts :: |c| == 34
    ensures |Flatten(parts)| == |parts| * 34
  {
    if parts != [] {
      FlattenLength(parts[1..]);
      assert parts[0] in parts;
    }
  }

  lemma SkipWrittenCreators(data: seq<byte>, pos: nat, creators: Option<seq<seq<byte>>>)
    requires At(data, pos, WriteCreators(creators))
    requires creators.Some? ==> IsU32(|creators.value|) && forall c | c in creators.value :: |c| == 34
    ensures SkipCreators(data, pos) == pos + |WriteCreators(creators)|
  {
    match creators
    case None =>
      AtByte(data, pos, 0, []);
    case Some(list) =>
      var count := LittleFixed(|list|, 4);
      assert WriteCreators(creators) == [1] + (count + Flatten(list));
      AtByte(data, pos, 1, count + Flatten(list));
      AtSplit(data, pos + 1, count, Flatten(list));
      LittleFixedValue(|list|, 4);
      FlattenLength(list);
  }

  lemma SkipWrittenOption(data: seq<byte>, pos: nat, value: Option<byte>)
    requires At(data, pos, WriteOption(value))
    ensures SkipOption(data, pos) == pos + |WriteOption(value)|
  {
    match value
    case None =>
      AtByte(data, pos, 0, []);
    case Some(v) =>
      assert WriteOption(value) == [1] + [v];
      AtByte(data, pos, 1, [v]);
  }

  lemma ReadWrittenCollection(data: seq<byte>, pos: nat, collection: Option<(byte, seq<byte>)>)
    requires At(data, pos, WriteCollection(collection)) && (collection.Some? ==> |collection.value.1| == 32)
    ensures ReadCollection(data, pos) == if collection.Some? then Some(collection.value.1) else None
  {
    match collection
    case None =>
      AtByte(data, pos, 0, []);
    case Some(c) =>
      assert WriteCollection(collection) == [1] + ([c.0] + c.1);
      AtByte(data, pos, 1, [c.0] + c.1);
      AtSplit(data, pos + 1, [c.0], c.1);
  }

  lemma ReadWrittenTail(data: seq<byte>, pos: nat, a: Account)
    requires IsWellSized(a) && At(data, pos, WriteTail(a))
    ensures ReadCollection(data, SkipToCollection(data, pos))
            == if a.collection.Some? then Some(a.collection.value.1) else None
  {
    hide ReadCollection, SkipCreators, SkipOption, WriteCreators, WriteOption, WriteCollection, At;
    var creators, nonce := WriteCreators(a.creators), WriteOption(a.editionNonce);
    var standard, collection := WriteOption(a.tokenStandard), WriteCollection(a.collection);
    AtSplit(data, pos, creators, [a.primarySaleHappened] + ([a.isMutable] + (nonce + (standard + collection))));
    SkipWrittenCreators(data, pos, a.creators);
    var p := pos + |creators|;
    AtByte(data, p, a.primarySaleHappened, [a.isMutable] + (nonce + (standard + collection)));
    AtByte(data, p + 1, a.isMutable, nonce + (standard + collection));
    AtSplit(data, p + 2, nonce, standard + collection);
    SkipWrittenOption(data, p + 2, a.editionNonce);
    AtSplit(data, p + 2 + |nonce|, standard, collection);
    SkipWrittenOption(data, p + 2 + |nonce|, a.tokenStandard);
    ReadWrittenCollection(data, p + 2 + |nonce| + |standard|, a.collection);
  }

  /** Where the parts of a written account lie. */
  lemma Layout(data: seq<byte>, a: Account)
    requires IsWellSized(a) && At(data, 0, WriteAccount(a))
    ensures data != [] && data[0] == 4 && At(data, 33, a.mint)
    ensures var p := 65 + |WriteString(a.name)|;
      var q := p + |WriteString(a.symbol)|;
      var r := q + |WriteString(a.uri)|;
      && At(data, 65, WriteString(a.name)) && At(data, p, WriteString(a.symbol)) && At(data, q, WriteString(a.uri))
      && At(data, r, a.fee) && At(data, r + 2, WriteTail(a))
  {
    var name, symbol, uri := WriteString(a.name), WriteString(a.symbol), WriteString(a.uri);
    var tail := WriteTail(a);
    hide At, WriteString, WriteTail;
    AtByte(data, 0, 4, a.authority + (a.mint + (name + (symbol + (uri + (a.fee + tail))))));
    AtSplit(data, 1, a.authority, a.mint + (name + (symbol + (uri + (a.fee + tail)))));
    AtSplit(data, 33, a.mint, name + (symbol + (uri + (a.fee + tail))));
    AtSplit(data, 65, name, symbol + (uri + (a.fee + tail)));
    var p := 65 + |name|;
    AtSplit(data, p, symbol, uri + (a.fee + tail));
    var q := p + |symbol|;
    AtSplit(data, q, uri, a.fee + tail);
    AtSplit(data, q + |uri|, a.fee, tail);
  }

  /** Every written account is read back, whatever follows it. */
  lemma MetadataRoundTrip(a: Account, rest: seq<byte>, text: seq<byte> -> string)
    requires IsWellSized(a)
    ensures Parsed(WriteAccount(a) + rest, text)
            == Some(Info(Encoded(a.mint), text(a.name), text(a.symbol), text(a.uri),
                         if a.collection.Some? then Some(Encoded(a.collection.value.1)) else None))
  {
    hide ReadString, At, WriteString, WriteTail, WriteAccount, Encoded, SkipToCollection, ReadCollection, Parsed, IsU32;
    var data := WriteAccount(a) + rest;
    HeadLength(a);
    AtFront(WriteAccount(a), rest);
    Layout(data, a);
    var p := 65 + |WriteString(a.name)|;
    var q := p + |WriteString(a.symbol)|;
    var r := q + |WriteString(a.uri)|;
    ReadWritten(data, 65, a.name);
    ReadWritten(data, p, a.symbol);
    ReadWritten(data, q, a.uri);
    ReadWrittenTail(data, r + 2, a);
    AtIs(data, 33, a.mint);
    AtIs(data, r, a.fee);
    ParsedParts(data, text, p, q, r);
  }

  lemma ParsedParts(data: seq<byte>, text: seq<byte> -> string, p: nat, q: nat, r: nat)
    requires |data| >= 70 && data[0] == 4 && r + 2 <= |data|
    requires ReadString(data, 65).1 == p && ReadString(data, p).1 == q && ReadString(data, q).1 == r
    ensures var collection := ReadCollection(data, SkipToCollection(data, r + 2));
      Parsed(data, text)
      == Some(Info(Encoded(data[33..65]), text(ReadString(data, 65).0), text(ReadString(data, p).0),
                   text(ReadString(data, q).0), if collection.Some? then Some(Encoded(collection.value)) else None))
  {
    hide ReadString, ReadCollection, SkipToCollection, Encoded;
  }

  lemma AtFront(a: seq<byte>, b: seq<byte>)
    ensures At(a + b, 0, a)
  {
    assert (a + b)[0..|a|] == a;
  }

  lemma AtIs(data: seq<byte>, pos: nat, part: seq<byte>)
    requires At(data, pos, part)
    ensures pos + |part| <= |data| && data[pos..pos + |part|] == part
  {}

  lemma HeadLength(a: Account)
    requires IsWellSized(a)
    ensures |WriteAccount(a)| >= 70
  {}

  /** The reported keys decode back to the bytes in the account. */
  lemma ReportedKeysDecode(a: Account, rest: seq<byte>, text: seq<byte> -> string)
    requires IsWellSized(a)
    ensures var info := Parsed(WriteAccount(a) + rest, text);
      && info.Some?
      && Decoded(info.value.mint) == Some(a.mint)
      && 32 <= |info.value.mint| <= 44
      && (a.collection.Some? ==> info.value.collection.Some?
                                 && Decoded(info.value.collection.value) == Some(a.collection.value.1))
  {
    MetadataRoundTrip(a, rest, text);
    hide Parsed, WriteAccount, Encoded, Decoded;
    DecodeEncode(a.mint);
    KeyLength(a.mint);
    if a.collection.Some? {
      DecodeEncode(a.collection.value.1);
    }
  }
}
