/** The Base58 codec as big-number arithmetic: encoding and decoding undo each
    other, and a 32-byte key always has 32 to 44 characters.
 */
module Base58 {
  import opened Arithmetic
  import opened Orders
  import opened Primes
  import opened Numerals

  // ----- the alphabet -----

  const ALPHABET := "123456789" + "ABCDEFGH" + "JKLMN" + "PQRSTUVWXYZ" + "abcdefghijk" + "mnopqrstuvwxyz"

  function Symbol(i: nat): char
    requires i < 58
  {
    if i < 9 then '1' + i as char
    else if i < 17 then 'A' + (i - 9) as char
    else if i < 22 then 'J' + (i - 17) as char
    else if i < 33 then 'P' + (i - 22) as char
    else if i < 44 then 'a' + (i - 33) as char
    else 'm' + (i - 44) as char
  }

  /** The position of a character in the alphabet. */
  function SymbolIndex(c: char): (r: Option<nat>)
    ensures r.Some? ==> r.value < 58
  {
    if '1' <= c <= '9' then Some((c - '1') as nat)
    else if 'A' <= c <= 'H' then Some((c - 'A') as nat + 9)
    else if 'J' <= c <= 'N' then Some((c - 'J') as nat + 17)
    else if 'P' <= c <= 'Z' then Some((c - 'P') as nat + 22)
    else if 'a' <= c <= 'k' then Some((c - 'a') as nat + 33)
    else if 'm' <= c <= 'z' then Some((c - 'm') as nat + 44)
    else None
  }

  lemma AlphabetSymbols()
    ensures |ALPHABET| == 58
    ensures forall i | 0 <= i < 58 :: ALPHABET[i] == Symbol(i)
  {
  }

  lemma SymbolInverse(i: nat)
    requires i < 58
    ensures SymbolIndex(Symbol(i)) == Some(i)
  {
  }

  lemma IndexInverse(c: char)
    ensures SymbolIndex(c).Some? ==> Symbol(SymbolIndex(c).value) == c
    ensures SymbolIndex(c).None? <==> c !in ALPHABET
  {
    AlphabetSymbols();
    if SymbolIndex(c).Some? {
      assert ALPHABET[SymbolIndex(c).value] == c;
    }
    if c in ALPHABET {
      var i :| 0 <= i < 58 && ALPHABET[i] == c;
      SymbolInverse(i);
    }
  }

  // ----- what the two directions compute -----

  predicate Valid(s: string) {
    forall i | 0 <= i < |s| :: SymbolIndex(s[i]).Some?
  }

  function Indices(s: string): (r: seq<nat>)
    requires Valid(s)
    ensures |r| == |s| && Below(r, 58)
  {
    seq(|s|, i requires 0 <= i < |s| => SymbolIndex(s[i]).value)
  }

  function Symbols(digits: seq<nat>): (r: string)
    requires Below(digits, 58)
    ensures |r| == |digits|
  {
    seq(|digits|, i requires 0 <= i < |digits| => Symbol(digits[i]))
  }

  function Encoded(data: seq<byte>): string {
    Repeat<char>('1', Leading<nat>(data, 0)) + Symbols(Digits(BigEndian(data, 256), 58))
  }

  function Decoded(s: string): (r: Option<seq<byte>>) {
    if !Valid(s) then None
    else Some(Repeat<nat>(0, Leading<char>(s, '1')) + ToBytes(Digits(BigEndian(Indices(s), 58), 256)))
  }

  function ToBytes(digits: seq<nat>): (r: seq<byte>)
    requires Below(digits, 256)
    ensures r == digits
  {
    seq(|digits|, i requires 0 <= i < |digits| => digits[i])
  }

  // ----- the loops -----

  /** `n = n * 58 + index` over the characters; None at the first bad one. */
  method ReadNumber(s: string) returns (n: Option<nat>)
    ensures n == if Valid(s) then Some(BigEndian(Indices(s), 58)) else None
  {
    var number: nat := 0;
    for i := 0 to |s|
      invariant Valid(s[..i])
      invariant number == BigEndian(Indices(s[..i]), 58)
    {
      var index := SymbolIndex(s[i]);
      if index.None? {
        return None;
      }
      assert Indices(s[..i + 1]) == Indices(s[..i]) + [index.value];
      AppendDigit(Indices(s[..i]), index.value, 58);
      number := number * 58 + index.value;
    }
    assert s[..|s|] == s;
    n := Some(number);
  }

  /** `result.append(n & 0xFF); n >>= 8`, then reversed. */
  method WriteBytes(n: nat) returns (r: seq<byte>)
    ensures r == ToBytes(Digits(n, 256))
  {
    var left := n;
    var result: seq<byte> := [];
    while left > 0
      invariant Digits(left, 256) + Reverse(result) == Digits(n, 256)
    {
      Shrinks(left, 256);
      ReverseAppend(result, left % 256);
      assert Digits(left / 256, 256) + ([left % 256] + Reverse(result)) == Digits(left, 256) + Reverse(result);
      result := result + [left % 256];
      left := left / 256;
    }
    r := Reverse(result);
    assert Digits(0, 256) + Reverse(result) == Reverse(result);
  }

  method B58Decode(s: string) returns (r: Option<seq<byte>>)
    ensures r == Decoded(s)
  {
    var n := ReadNumber(s);
    if n.None? {
      return None;
    }
    var body := WriteBytes(n.value);
    var pad := |s| - |s[Leading<char>(s, '1')..]|;
    r := Some(Repeat<nat>(0, pad) + body);
  }

  lemma {:induction false} ReverseAppend<T>(s: seq<T>, x: T)
    ensures Reverse(s + [x]) == [x] + Reverse(s)
  {
    if s != [] {
      assert (s + [x])[1..] == s[1..] + [x];
      ReverseAppend(s[1..], x);
    }
  }

  method B58Encode(data: seq<byte>) returns (r: string)
    ensures r == Encoded(data)
  {
    var n: nat := BigEndian(data, 256);
    ghost var value := n;
    var result: string := [];
    while n > 0
      invariant Symbols(Digits(n, 58)) + Reverse(result) == Symbols(Digits(value, 58))
    {
      AlphabetSymbols();
      Shrinks(n, 58);
      var q, d := n / 58, n % 58;
      assert Symbols(Digits(n, 58)) == Symbols(Digits(q, 58)) + [Symbol(d)];
      ReverseAppend(result, Symbol(d));
      result := result + [ALPHABET[d]];
      n := q;
    }
    var pad := |data| - |data[Leading<nat>(data, 0)..]|;
    r := Repeat<char>('1', pad) + Reverse(result);
  }

  // ----- the codec is a bijection -----

  lemma SymbolsOfIndices(s: string)
    requires Valid(s)
    ensures Symbols(Indices(s)) == s
  {
    forall i | 0 <= i < |s|
      ensures Symbols(Indices(s))[i] == s[i]
    {
      IndexInverse(s[i]);
    }
  }

  lemma IndicesOfSymbols(digits: seq<nat>)
    requires Below(digits, 58)
    ensures Valid(Symbols(digits)) && Indices(Symbols(digits)) == digits
  {
    forall i | 0 <= i < |digits|
      ensures SymbolIndex(Symbols(digits)[i]) == Some(digits[i])
    {
      SymbolInverse(digits[i]);
    }
  }

  lemma {:induction false} ZerosInFront(k: nat, s: seq<nat>, base: nat)
    ensures BigEndian(Repeat<nat>(0, k) + s, base) == BigEndian(s, base)
  {
    var t := Repeat<nat>(0, k) + s;
    if s == [] {
      assert t == Repeat<nat>(0, k);
      ZeroValue(t, base);
    } else {
      assert t[..|t| - 1] == Repeat<nat>(0, k) + s[..|s| - 1];
      ZerosInFront(k, s[..|s| - 1], base);
    }
  }

  /** The encoding of data is k ones and then digits of which the first is not
      zero, so the padding can be told from the digits. */
  lemma PaddingIsExact<T>(k: nat, x: T, tail: seq<T>)
    requires tail != [] ==> tail[0] != x
    ensures Leading(Repeat(x, k) + tail, x) == k
  {
    LeadingUnique(Repeat(x, k) + tail, x, k);
  }

  /** Decoding an encoding gives the bytes back. */
  lemma DecodeEncode(data: seq<byte>)
    ensures Decoded(Encoded(data)) == Some(data)
  {
    var k, n := Leading<nat>(data, 0), BigEndian(data, 256);
    var digits := Digits(n, 58);
    EncodedParts(data, k, digits);
    EncodedNumber(k, digits);
    ValueOfDigits(n, 58);
    DigitsOfValue(data, 256);
    DecodedParts(Encoded(data), k, n);
    hide Encoded, Decoded, Leading, BigEndian, Digits;
    assert Repeat<nat>(0, k) + data[k..] == data;
  }

  lemma EncodedParts(data: seq<byte>, k: nat, digits: seq<nat>)
    requires k == Leading<nat>(data, 0) && digits == Digits(BigEndian(data, 256), 58)
    ensures Encoded(data) == Repeat<char>('1', k) + Symbols(digits)
  {
  }

  /** The text of k ones and these digits has the number of the digits and k ones in front. */
  lemma EncodedNumber(k: nat, digits: seq<nat>)
    requires Below(digits, 58) && (digits != [] ==> digits[0] != 0)
    ensures var s := Repeat<char>('1', k) + Symbols(digits);
      Valid(s) && BigEndian(Indices(s), 58) == BigEndian(digits, 58) && Leading<char>(s, '1') == k
  {
    hide BigEndian, Leading;
    IndicesOfSymbols(digits);
    EncodedIndices(k, digits);
    ZerosInFront(k, digits, 58);
    if digits != [] {
      SymbolInverse(digits[0]);
    }
    PaddingIsExact<char>(k, '1', Symbols(digits));
  }

  lemma DecodedParts(s: string, k: nat, n: nat)
    requires Valid(s) && BigEndian(Indices(s), 58) == n && Leading<char>(s, '1') == k
    ensures Decoded(s) == Some(ToBytes(Repeat<nat>(0, k) + Digits(n, 256)))
  {
  }

  lemma EncodedIndices(k: nat, digits: seq<nat>)
    requires Below(digits, 58)
    ensures Valid(Repeat<char>('1', k) + Symbols(digits))
    ensures Indices(Repeat<char>('1', k) + Symbols(digits)) == Repeat<nat>(0, k) + digits
  {
    var s := Repeat<char>('1', k) + Symbols(digits);
    forall i | 0 <= i < |s|
      ensures SymbolIndex(s[i]) == Some((Repeat<nat>(0, k) + digits)[i])
    {
      if i >= k {
        SymbolInverse(digits[i - k]);
      }
    }
  }

  /** Encoding a decoding gives the string back, for every string over the alphabet. */
  lemma EncodeDecode(s: string)
    requires Valid(s)
    ensures Encoded(Decoded(s).value) == s
  {
    var k, n := Leading<char>(s, '1'), BigEndian(Indices(s), 58);
    var bytes := Digits(n, 256);
    PaddingIsExact<nat>(k, 0, bytes);
    ZerosInFront(k, bytes, 256);
    ValueOfDigits(n, 256);
    DigitsKept(s);
    assert Decoded(s).value == Repeat<nat>(0, k) + bytes;
    hide Digits, BigEndian, Leading, Symbols, Valid, Indices;
    assert Encoded(Decoded(s).value) == Repeat<char>('1', k) + s[k..];
  }

  /** The digits of the value are the characters after the padding. */
  lemma DigitsKept(s: string)
    requires Valid(s)
    ensures Symbols(Digits(BigEndian(Indices(s), 58), 58)) == s[Leading<char>(s, '1')..]
  {
    DigitsOfValue(Indices(s), 58);
    OnesAreZeros(s);
    SymbolsOfIndices(s);
  }

  lemma {:induction false} OnesAreZeros(s: string)
    requires Valid(s)
    ensures Leading<nat>(Indices(s), 0) == Leading<char>(s, '1')
  {
    var k := Leading<char>(s, '1');
    if k < |s| {
      IndexInverse(s[k]);
    }
    LeadingUnique<nat>(Indices(s), 0, k);
  }

  // ----- the length of a key -----

  /** 256^32 <= 58^44. */
  lemma KeyFitsIn44()
    ensures Pow(256, 32) <= Pow(58, 44)
  {
    assert Pow(256, 4) == 0x1_0000_0000 by {
      assert Pow(256, 2) == 65536;
      PowAdd(256, 2, 2);
    }
    assert Pow(58, 4) == 11316496 by {
      assert Pow(58, 2) == 3364;
      PowAdd(58, 2, 2);
    }
    assert Pow(58, 3) == 195112 by { assert Pow(58, 2) == 3364; }
    PowAdd(256, 4, 4);
    PowAdd(256, 8, 8);
    PowAdd(256, 16, 16);
    PowAdd(58, 4, 4);
    PowAdd(58, 8, 3);
    PowAdd(58, 11, 11);
    PowAdd(58, 22, 22);
  }

  lemma {:induction false} PowMonotone(a: nat, b: nat, k: nat)
    requires 0 < a <= b
    ensures Pow(a, k) <= Pow(b, k)
  {
    if k > 0 {
      PowMonotone(a, b, k - 1);
      PowPositive(a, k - 1);
      MulMonotone(a, b, Pow(a, k - 1));
      MulMonotone(Pow(a, k - 1), Pow(b, k - 1), b);
    }
  }

  /** 256^(32 - z) <= 58^(44 - z). */
  lemma ShorterKeyFits(z: nat)
    requires z <= 32
    ensures Pow(256, 32 - z) <= Pow(58, 44 - z)
  {
    hide Pow;
    KeyFitsIn44();
    PowAdd(256, 32 - z, z);
    PowAdd(58, 44 - z, z);
    PowMonotone(58, 256, z);
    PowPositive(58, z);
    PowPositive(256, 32 - z);
    CancelFactor(Pow(256, 32 - z), Pow(58, 44 - z), Pow(256, z), Pow(58, z));
  }

  lemma CancelFactor(a: nat, b: nat, c: nat, d: nat)
    requires a * c <= b * d && c >= d > 0
    ensures a <= b
  {
    MulMonotone(d, c, a);
    assert (b + 1) * d == b * d + d;
    if a > b {
      MulMonotone(b + 1, a, d);
    }
  }

  /** Every 32-byte key is written with 32 to 44 characters. */
  lemma KeyLength(data: seq<byte>)
    requires |data| == 32
    ensures 32 <= |Encoded(data)| <= 44
  {
    var z := Leading<nat>(data, 0);
    var tail := data[z..];
    assert data == Repeat<nat>(0, z) + tail;
    assert |tail| == 32 - z && (tail != [] ==> tail[0] != 0);
    hide Digits, BigEndian, Leading, Pow, Symbols;
    ZerosInFront(z, tail, 256);
    KeyDigits(tail, BigEndian(tail, 256));
    assert |Encoded(data)| == z + |Digits(BigEndian(tail, 256), 58)|;
  }

  lemma KeyDigits(tail: seq<nat>, n: nat)
    requires |tail| <= 32 && Below(tail, 256) && (tail != [] ==> tail[0] != 0)
    requires n == BigEndian(tail, 256)
    ensures |tail| <= |Digits(n, 58)| <= |tail| + 12
  {
    hide Digits, BigEndian, Pow;
    ValueBound(tail, 256);
    ShorterKeyFits(32 - |tail|);
    DigitCount(n, 58, |tail| + 12);
    if tail != [] {
      ValueAtLeast(tail, 256);
      PowMonotone(58, 256, |tail| - 1);
      DigitCount(n, 58, |tail| - 1);
    }
  }

  /** The mint filter of the account scan: decoded data of 32 bytes, not all
      zero, with an encoding of plausible length. */
  predicate KeepsMint(raw: seq<byte>) {
    |raw| == 32 && raw != Repeat<nat>(0, 32) && 32 <= |Encoded(raw)| <= 44
  }

  /** The length test never drops a key. */
  lemma MintFilterKeepsKeys(raw: seq<byte>)
    ensures KeepsMint(raw) <==> |raw| == 32 && raw != Repeat<nat>(0, 32)
  {
    if |raw| == 32 {
      KeyLength(raw);
    }
  }
}
