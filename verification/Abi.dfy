/** The Contract ABI data the fetchers read: an event's two dynamic arrays of uint256
    and the result of a call that returns one dynamic string.
 */
module Abi {
  import opened Arithmetic
  import opened Orders
  import opened Primes
  import opened Numerals

  // ----- words -----

  /** `n` in `k` bytes, most significant first. */
  function Fixed(n: nat, k: nat): (r: seq<byte>)
    ensures |r| == k
  {
    if k == 0 then [] else Fixed(n / 256, k - 1) + [n % 256]
  }

  lemma {:induction false} FixedValue(n: nat, k: nat)
    requires n < Pow(256, k)
    ensures BigEndian(Fixed(n, k), 256) == n
  {
    if k > 0 {
      DivideBound(n, 256, Pow(256, k - 1));
      FixedValue(n / 256, k - 1);
      AppendDigit(Fixed(n / 256, k - 1), n % 256, 256);
      Division(n, 256);
    }
  }

  predicate IsUint256(n: nat) { n < Pow(256, 32) }

  function Word(n: nat): (r: seq<byte>)
    ensures |r| == 32
  {
    Fixed(n, 32)
  }

  /** `int.from_bytes` of the 32 bytes at `at`. */
  function WordAt(raw: seq<byte>, at: nat): nat
    requires at + 32 <= |raw|
  {
    BigEndian(raw[at..at + 32], 256)
  }

  function Words(ns: seq<nat>): (r: seq<byte>)
    ensures |r| == 32 * |ns|
  {
    if ns == [] then [] else Words(ns[..|ns| - 1]) + Word(ns[|ns| - 1])
  }

  lemma SliceOfFront(a: seq<byte>, b: seq<byte>, at: nat)
    requires at + 32 <= |a|
    ensures (a + b)[at..at + 32] == a[at..at + 32]
  {
  }

  lemma SliceOfBack(a: seq<byte>, b: seq<byte>)
    ensures (a + b)[|a|..|a| + |b|] == b
  {
  }

  /** The words of an array where it lies. */
  lemma {:induction false} WordsAt(ns: seq<nat>, i: nat)
    requires i < |ns|
    ensures Words(ns)[32 * i..32 * i + 32] == Word(ns[i])
  {
    var n := |ns| - 1;
    var init, last := Words(ns[..n]), Word(ns[n]);
    assert Words(ns) == init + last;
    hide Words, Word;
    if i < n {
      WordsAt(ns[..n], i);
      SliceOfFront(init, last, 32 * i);
    } else {
      SliceOfBack(init, last);
    }
  }

  // ----- two arrays -----

  /** The standard encoding of a pair of dynamic uint256 arrays. */
  function EncodeBatch(ids: seq<nat>, values: seq<nat>): seq<byte> {
    Word(64) + Word(96 + 32 * |ids|) + (Word(|ids|) + Words(ids)) + (Word(|values|) + Words(values))
  }

  function Least(a: nat, b: nat): nat { if a < b then a else b }

  /** The whole words of the first array that the data still holds. */
  function BatchIds(raw: seq<byte>): seq<nat> {
    if |raw| < 64 then []
    else
      var offset := WordAt(raw, 0);
      if offset + 32 > |raw| then []
      else
        var count := Least(WordAt(raw, offset), (|raw| - offset - 32) / 32);
        seq(count, i requires 0 <= i < count => WordAt(raw, offset + 32 + 32 * i))
  }

  method DecodeBatch(raw: seq<byte>) returns (ids: seq<nat>)
    ensures ids == BatchIds(raw)
  {
    if |raw| < 64 {
      return [];
    }
    var offset := WordAt(raw, 0);
    if offset + 32 > |raw| {
      return [];
    }
    var length := WordAt(raw, offset);
    ids := [];
    var i := 0;
    while i < length
      invariant i <= length && i <= (|raw| - offset - 32) / 32
      invariant |ids| == i && forall j | 0 <= j < i :: ids[j] == WordAt(raw, offset + 32 + 32 * j)
    {
      var start := offset + 32 + i * 32;
      if start + 32 > |raw| {
        break;
      }
      ids := ids + [WordAt(raw, start)];
      i := i + 1;
    }
  }

  /** The parts of an encoded pair, by position. */
  lemma EncodedParts(ids: seq<nat>, values: seq<nat>)
    ensures var full := EncodeBatch(ids, values);
      && |full| == 128 + 32 * |ids| + 32 * |values|
      && full[0..32] == Word(64) && full[64..96] == Word(|ids|) && full[96..96 + 32 * |ids|] == Words(ids)
  {
    var tail := Word(|values|) + Words(values);
    FourParts(Word(64), Word(96 + 32 * |ids|), Word(|ids|), Words(ids), tail);
  }

  lemma FourParts(a: seq<byte>, b: seq<byte>, c: seq<byte>, d: seq<byte>, rest: seq<byte>)
    requires |a| == |b| == |c| == 32
    ensures var s := a + b + (c + d) + rest;
      s[0..32] == a && s[64..96] == c && s[96..96 + |d|] == d
  {
    var s, front := a + b + (c + d) + rest, a + b + c;
    assert s == front + (d + rest);
    assert front[0..32] == a && front[64..96] == c;
    SliceOfFront(front, d + rest, 0);
    SliceOfFront(front, d + rest, 64);
    assert s[96..] == d + rest;
  }

  /** The words of an encoded pair, by position. */
  lemma EncodedWords(ids: seq<nat>, values: seq<nat>)
    ensures var full := EncodeBatch(ids, values);
      && |full| == 128 + 32 * |ids| + 32 * |values|
      && full[0..32] == Word(64) && full[64..96] == Word(|ids|)
      && forall i | 0 <= i < |ids| :: full[96 + 32 * i..96 + 32 * i + 32] == Word(ids[i])
  {
    EncodedParts(ids, values);
    hide EncodeBatch, Word, Words;
    forall i | 0 <= i < |ids|
      ensures EncodeBatch(ids, values)[96 + 32 * i..96 + 32 * i + 32] == Word(ids[i])
    {
      WordsAt(ids, i);
      SliceOfSlice(EncodeBatch(ids, values), 96, 32 * |ids|, 32 * i);
    }
  }

  lemma SliceOfSlice(s: seq<byte>, from: nat, length: nat, at: nat)
    requires from + length <= |s| && at + 32 <= length
    ensures s[from..from + length][at..at + 32] == s[from + at..from + at + 32]
  {
    var inner, outer := s[from..from + length][at..at + 32], s[from + at..from + at + 32];
    assert forall i | 0 <= i < 32 :: inner[i] == s[from + at + i] && outer[i] == s[from + at + i];
  }

  lemma SmallWord(n: nat)
    requires n < 256
    ensures IsUint256(n)
  {
    PowPositive(256, 31);
    MulMonotone(1, Pow(256, 31), 256);
  }

  lemma WordOfPrefix(full: seq<byte>, k: nat, at: nat)
    requires at + 32 <= k <= |full|
    ensures WordAt(full[..k], at) == WordAt(full, at)
  {
    assert full[..k][at..at + 32] == full[at..at + 32];
  }

  /** What a reader finds at the word boundaries of an encoded pair. */
  lemma EncodedNumbers(ids: seq<nat>, values: seq<nat>)
    requires IsUint256(|ids|) && forall i | 0 <= i < |ids| :: IsUint256(ids[i])
    ensures var full := EncodeBatch(ids, values);
      && |full| == 128 + 32 * |ids| + 32 * |values|
      && WordAt(full, 0) == 64 && WordAt(full, 64) == |ids|
      && forall i | 0 <= i < |ids| :: WordAt(full, 96 + 32 * i) == ids[i]
  {
    var full := EncodeBatch(ids, values);
    EncodedWords(ids, values);
    SmallWord(64);
    WordValue(64);
    WordValue(|ids|);
    hide Word, EncodeBatch, IsUint256;
    forall i | 0 <= i < |ids|
      ensures WordAt(full, 96 + 32 * i) == ids[i]
    {
      WordValue(ids[i]);
    }
  }

  /** What the decoder makes of a prefix of data whose words are known. */
  lemma PrefixIds(full: seq<byte>, ids: seq<nat>, k: nat)
    requires 96 + 32 * |ids| <= |full| && k <= |full|
    requires WordAt(full, 0) == 64 && WordAt(full, 64) == |ids|
    requires forall i | 0 <= i < |ids| :: WordAt(full, 96 + 32 * i) == ids[i]
    ensures BatchIds(full[..k]) == if k < 96 then [] else ids[..Least(|ids|, (k - 96) / 32)]
  {
    hide WordAt;
    if k >= 64 {
      WordOfPrefix(full, k, 0);
    }
    if k >= 96 {
      WordOfPrefix(full, k, 64);
      forall i: nat | i < |ids| && 96 + 32 * i + 32 <= k
        ensures WordAt(full[..k], 96 + 32 * i) == ids[i]
      {
        WordOfPrefix(full, k, 96 + 32 * i);
      }
    }
  }

  /** However much of an encoded pair arrives, the decoder returns the ids that arrived
      whole, in order. */
  lemma TruncatedBatch(ids: seq<nat>, values: seq<nat>, k: nat)
    requires IsUint256(|ids|) && forall i | 0 <= i < |ids| :: IsUint256(ids[i])
    requires k <= |EncodeBatch(ids, values)|
    ensures BatchIds(EncodeBatch(ids, values)[..k])
            == if k < 96 then [] else ids[..Least(|ids|, (k - 96) / 32)]
  {
    hide WordAt, EncodeBatch, IsUint256, BatchIds;
    EncodedNumbers(ids, values);
    PrefixIds(EncodeBatch(ids, values), ids, k);
  }

  lemma WordValue(n: nat)
    requires IsUint256(n)
    ensures BigEndian(Word(n), 256) == n
  {
    FixedValue(n, 32);
  }

  /** Decoding undoes encoding. */
  lemma BatchRoundTrip(ids: seq<nat>, values: seq<nat>)
    requires IsUint256(|ids|) && forall i | 0 <= i < |ids| :: IsUint256(ids[i])
    ensures BatchIds(EncodeBatch(ids, values)) == ids
  {
    var full := EncodeBatch(ids, values);
    EncodedWords(ids, values);
    hide BatchIds, EncodeBatch;
    TruncatedBatch(ids, values, |full|);
    assert full[..|full|] == full && ids[..|ids|] == ids;
  }

  // ----- hexadecimal text -----

  predicate IsSpace(c: char) { c == ' ' || '\t' <= c <= '\r' }

  function HexDigit(n: nat): char
    requires n < 16
  {
    if n < 10 then '0' + n as char else 'a' + (n - 10) as char
  }

  function HexValue(c: char): (r: Option<nat>)
    ensures r.Some? ==> r.value < 16
  {
    if '0' <= c <= '9' then Some((c - '0') as nat)
    else if 'a' <= c <= 'f' then Some((c - 'a') as nat + 10)
    else if 'A' <= c <= 'F' then Some((c - 'A') as nat + 10)
    else None
  }

  function ToHex(data: seq<byte>): string {
    if data == [] then "" else [HexDigit(data[0] / 16), HexDigit(data[0] % 16)] + ToHex(data[1..])
  }

  /** `bytes.fromhex`: two digits a byte, white space between bytes is skipped. */
  function FromHex(s: string): Option<seq<byte>> {
    if s == "" then Some([])
    else if IsSpace(s[0]) then FromHex(s[1..])
    else if |s| < 2 || HexValue(s[0]).None? || HexValue(s[1]).None? then None
    else match FromHex(s[2..])
      case None => None
      case Some(rest) => Some([ByteOf(HexValue(s[0]).value, HexValue(s[1]).value)] + rest)
  }

  function ByteOf(high: nat, low: nat): byte
    requires high < 16 && low < 16
  {
    16 * high + low
  }

  lemma {:induction false} HexRoundTrip(data: seq<byte>)
    ensures FromHex(ToHex(data)) == Some(data)
  {
    if data != [] {
      var s := ToHex(data);
      HexRoundTrip(data[1..]);
      assert s[2..] == ToHex(data[1..]);
      HexDigitValue(data[0] / 16);
      HexDigitValue(data[0] % 16);
      assert ByteOf(data[0] / 16, data[0] % 16) == data[0];
      assert data == [data[0]] + data[1..];
    }
  }

  lemma HexDigitValue(n: nat)
    requires n < 16
    ensures HexValue(HexDigit(n)) == Some(n) && !IsSpace(HexDigit(n))
  {}

  // ----- one string -----

  function Zeros(k: nat): (r: seq<byte>)
    ensures |r| == k
  {
    seq(k, i => 0)
  }

  /** The standard encoding of a call result that is one dynamic string. */
  function EncodeString(text: seq<byte>): seq<byte> {
    Word(32) + Word(|text|) + text + Zeros((32 - |text| % 32) % 32)
  }

  /** The bytes of the string, if all of them are there. */
  function StringBytes(raw: seq<byte>): Option<seq<byte>> {
    if |raw| < 64 then None
    else
      var offset := WordAt(raw, 0);
      if offset + 32 > |raw| then None
      else
        var start := offset + 32;
        var end := start + WordAt(raw, offset);
        if end > |raw| then None else Some(raw[start..end])
  }

  /** The result of a call, given what UTF-8 makes of bytes. */
  function DecodeStringResult(result: string, utf8: seq<byte> -> Option<string>): Option<string> {
    if |result| < 2 || result[..2] != "0x" then None
    else match FromHex(result[2..])
      case None => None
      case Some(raw) =>
        match StringBytes(raw)
        case None => None
        case Some(text) => utf8(text)
  }

  /** Of a cut-off encoding the text comes out exactly when all its bytes arrived; the
      padding does not matter. */
  lemma TruncatedString(text: seq<byte>, k: nat)
    requires IsUint256(|text|) && k <= |EncodeString(text)|
    ensures StringBytes(EncodeString(text)[..k]) == if k < 64 + |text| then None else Some(text)
  {
    var full := EncodeString(text);
    EncodedStringWords(text);
    hide WordAt, EncodeString, IsUint256;
    if k >= 64 {
      WordOfPrefix(full, k, 0);
      WordOfPrefix(full, k, 32);
      if k >= 64 + |text| {
        assert full[..k][64..64 + |text|] == full[64..64 + |text|];
      }
    }
  }

  lemma EncodedStringWords(text: seq<byte>)
    requires IsUint256(|text|)
    ensures var full := EncodeString(text);
      && |full| >= 64 + |text|
      && WordAt(full, 0) == 32 && WordAt(full, 32) == |text|
      && full[64..64 + |text|] == text
  {
    var full := EncodeString(text);
    SmallWord(32);
    WordValue(32);
    WordValue(|text|);
    assert full[0..32] == Word(32) && full[32..64] == Word(|text|);
  }

  /** Decoding the hexadecimal text of an encoded string gives what UTF-8 makes of it. */
  lemma StringRoundTrip(text: seq<byte>, utf8: seq<byte> -> Option<string>)
    requires IsUint256(|text|)
    ensures DecodeStringResult("0x" + ToHex(EncodeString(text)), utf8) == utf8(text)
  {
    var full := EncodeString(text);
    EncodedStringWords(text);
    hide EncodeString, WordAt, FromHex, StringBytes, IsUint256;
    HexRoundTrip(full);
    TruncatedString(text, |full|);
    assert full[..|full|] == full;
    assert ("0x" + ToHex(full))[2..] == ToHex(full);
  }
}
