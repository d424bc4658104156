/** The decoded length of a Base58 string by carrying through a byte vector: it
    stays within 16 bits and agrees with the big-number decoder.
 */
module Base58Length {
  import opened Orders
  import opened Primes
  import opened Numerals
  import opened Base58

  newtype u8 = x: int | 0 <= x < 0x100
  newtype u16 = x: int | 0 <= x < 0x1_0000

  function Parts(v: seq<u8>): (r: seq<nat>)
    ensures |r| == |v| && Below(r, 256)
    ensures forall i | 0 <= i < |v| :: r[i] == v[i] as nat
  {
    seq(|v|, i requires 0 <= i < |v| => v[i] as nat)
  }

  /** The number a byte vector holds, least significant byte first. */
  function Value(v: seq<u8>): nat { LittleEndian(Parts(v), 256) }

  lemma ValueAppend(v: seq<u8>, x: u8)
    ensures Value(v + [x]) == Value(v) + Pow(256, |v|) * (x as nat)
  {
    assert Parts(v + [x]) == Parts(v) + [x as nat];
    LittleEndianAppend(Parts(v), x as nat, 256);
  }

  /** One pass over the bytes: `value = part * 58 + carry`, the low byte stays and
      the high byte is carried on. */
  method MultiplyAdd(decoded: seq<u8>, digit: u16) returns (next: seq<u8>, carry: u16)
    requires digit < 58
    ensures |next| == |decoded| && carry <= 58
    ensures Value(next) + Pow(256, |next|) * (carry as nat) == 58 * Value(decoded) + digit as nat
  {
    carry := digit;
    next := [];
    assert Value([]) == 0;
    for i := 0 to |decoded|
      invariant |next| == i && carry <= 58
      invariant Value(next) + Pow(256, i) * (carry as nat) == 58 * Value(decoded[..i]) + digit as nat
    {
      var value: u16 := (decoded[i] as u16) * 58 + carry;
      var low, high := (value % 256) as u8, value / 256;
      CarryStep(next, decoded, i, carry, low, high, digit);
      next := next + [low];
      carry := high;
    }
    assert decoded[..|decoded|] == decoded;
  }

  lemma CarryStep(next: seq<u8>, decoded: seq<u8>, i: nat, carry: u16, low: u8, high: u16, digit: u16)
    requires i < |decoded| && |next| == i
    requires decoded[i] as nat * 58 + carry as nat == high as nat * 256 + low as nat
    requires Value(next) + Pow(256, i) * (carry as nat) == 58 * Value(decoded[..i]) + digit as nat
    ensures Value(next + [low]) + Pow(256, i + 1) * (high as nat) == 58 * Value(decoded[..i + 1]) + digit as nat
  {
    ValueAppend(next, low);
    ValueAppend(decoded[..i], decoded[i]);
    assert decoded[..i + 1] == decoded[..i] + [decoded[i]];
    CarrySum(Pow(256, i), carry as int, low as int, high as int, decoded[i] as int);
  }

  lemma CarrySum(q: int, carry: int, low: int, high: int, part: int)
    requires part * 58 + carry == high * 256 + low
    ensures q * low + (256 * q) * high == 58 * (q * part) + q * carry
  {
    calc {
      q * low + (256 * q) * high;
      q * (low + 256 * high);
      q * (part * 58 + carry);
      58 * (q * part) + q * carry;
    }
  }

  /** `while carry > 0 { push(carry as u8); carry >>= 8 }`. */
  method PushCarry(decoded: seq<u8>, carry: u16) returns (next: seq<u8>)
    ensures Value(next) == Value(decoded) + Pow(256, |decoded|) * (carry as nat)
    ensures decoded <= next
  {
    next := decoded;
    var rest := carry;
    while rest > 0
      invariant decoded <= next
      invariant Value(next) + Pow(256, |next|) * (rest as nat) == Value(decoded) + Pow(256, |decoded|) * (carry as nat)
    {
      var low, high := (rest % 256) as u8, rest / 256;
      ValueAppend(next, low);
      SplitCarry(Pow(256, |next|), rest as int, low as int, high as int);
      next := next + [low];
      rest := high;
    }
  }

  lemma SplitCarry(q: int, rest: int, low: int, high: int)
    requires rest == high * 256 + low
    ensures q * low + (256 * q) * high == q * rest
  {
    assert q * (high * 256 + low) == q * (high * 256) + q * low;
  }

  /** A vector whose last byte is not zero has as many bytes as its value has
      digits. */
  lemma TrimmedLength(v: seq<u8>)
    requires v != [] && v[|v| - 1] != 0
    ensures |Digits(Value(v), 256)| == |v|
  {
    var r := Reverse(Parts(v));
    ReversedValue(Parts(v), 256);
    ValueBound(r, 256);
    ValueAtLeast(r, 256);
    DigitCount(Value(v), 256, |v|);
    DigitCount(Value(v), 256, |v| - 1);
  }

  /** Dropping a last byte of zero keeps the value. */
  lemma DropZero(v: seq<u8>)
    requires v != [] && v[|v| - 1] == 0
    ensures Value(v[..|v| - 1]) == Value(v)
  {
    assert v == v[..|v| - 1] + [0];
    ValueAppend(v[..|v| - 1], 0);
  }

  method Trim(v: seq<u8>) returns (r: seq<u8>)
    requires v != []
    ensures r != [] && Value(r) == Value(v)
    ensures r == [0] || r[|r| - 1] != 0
  {
    r := v;
    while r[|r| - 1] == 0 && |r| > 1
      invariant r != [] && Value(r) == Value(v)
    {
      DropZero(r);
      r := r[..|r| - 1];
    }
  }

  method Base58DecodedLen(value: string) returns (r: Option<nat>)
    ensures r.None? <==> value == "" || Decoded(value).None?
    ensures r.Some? ==> r.value == |Decoded(value).value|
  {
    if value == "" {
      return None;
    }
    var leadingZeroes := Leading<char>(value, '1');
    var decoded: seq<u8> := [0];
    for i := 0 to |value|
      invariant Valid(value[..i]) && decoded != []
      invariant Value(decoded) == BigEndian(Indices(value[..i]), 58)
    {
      var index := SymbolIndex(value[i]);
      if index.None? {
        return None;
      }
      NextNumber(value, i, index.value);
      var carry: u16;
      decoded, carry := MultiplyAdd(decoded, index.value as u16);
      decoded := PushCarry(decoded, carry);
    }
    assert value[..|value|] == value;
    decoded := Trim(decoded);
    var bodyLen := if decoded == [0] then 0 else |decoded|;
    if decoded == [0] {
      assert Value(decoded) == 0;
    } else {
      TrimmedLength(decoded);
    }
    r := Some(leadingZeroes + bodyLen);
  }

  lemma NextNumber(value: string, i: nat, index: nat)
    requires i < |value| && Valid(value[..i]) && SymbolIndex(value[i]) == Some(index)
    ensures Valid(value[..i + 1])
    ensures BigEndian(Indices(value[..i + 1]), 58) == 58 * BigEndian(Indices(value[..i]), 58) + index
  {
    assert Indices(value[..i + 1]) == Indices(value[..i]) + [index];
    AppendDigit(Indices(value[..i]), index, 58);
  }

  /** A Solana address is accepted exactly when it is the encoding of a 32-byte key. */
  method ValidSolanaAddress(value: string) returns (r: bool)
    ensures r <==> exists key: seq<byte> :: |key| == 32 && Encoded(key) == value
  {
    var len := Base58DecodedLen(value);
    r := len == Some(32);
    if r {
      EncodeDecode(value);
      assert Encoded(Decoded(value).value) == value;
    }
    forall key: seq<byte> | |key| == 32 && Encoded(key) == value
      ensures r
    {
      DecodeEncode(key);
      KeyLength(key);
    }
  }
}
