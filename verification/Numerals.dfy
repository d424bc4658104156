/** Positional numerals: a number and its digits in any base. */
module Numerals {
  import opened Arithmetic
  import opened Primes

  type byte = x: nat | x < 256

  ghost predicate Below(s: seq<nat>, base: nat) {
    forall i | 0 <= i < |s| :: s[i] < base
  }

  /** The value of digits written most significant first. */
  function BigEndian(s: seq<nat>, base: nat): nat {
    if s == [] then 0 else BigEndian(s[..|s| - 1], base) * base + s[|s| - 1]
  }

  /** The value of digits written least significant first. */
  function LittleEndian(s: seq<nat>, base: nat): nat {
    if s == [] then 0 else s[0] + base * LittleEndian(s[1..], base)
  }

  /** The digits of n, most significant first, without leading zeros. */
  function Digits(n: nat, base: nat): (r: seq<nat>)
    requires base > 1
    ensures Below(r, base)
    ensures n > 0 ==> r != [] && r[0] != 0
  {
    if n == 0 then [] else
      assert n / base < n by { Shrinks(n, base); }
      Digits(n / base, base) + [n % base]
  }

  lemma Shrinks(n: nat, base: nat)
    requires n > 0 && base > 1
    ensures n / base < n
  {
    assert n == base * (n / base) + n % base;
    MulMonotone(2, base, n / base);
  }

  lemma QuotientRemainder(q: nat, r: nat, base: nat)
    requires r < base
    ensures (q * base + r) / base == q && (q * base + r) % base == r
  {
    assert q * base + r == base * q + r;
    DivModUnique(q * base + r, base, q, r);
  }

  lemma {:induction false} ValueOfDigits(n: nat, base: nat)
    requires base > 1
    ensures BigEndian(Digits(n, base), base) == n
  {
    if n > 0 {
      Shrinks(n, base);
      ValueOfDigits(n / base, base);
      AppendDigit(Digits(n / base, base), n % base, base);
      Division(n, base);
    }
  }

  lemma AppendDigit(s: seq<nat>, x: nat, base: nat)
    ensures BigEndian(s + [x], base) == BigEndian(s, base) * base + x
  {
    assert (s + [x])[..|s|] == s;
  }

  /** How many of the leading elements are x. */
  function Leading<T(==)>(s: seq<T>, x: T): (k: nat)
    ensures k <= |s|
    ensures forall i | 0 <= i < k :: s[i] == x
    ensures k < |s| ==> s[k] != x
  {
    if s == [] || s[0] != x then 0 else 1 + Leading(s[1..], x)
  }

  function Repeat<T>(x: T, k: nat): (r: seq<T>)
    ensures |r| == k && forall i | 0 <= i < k :: r[i] == x
  {
    seq(k, _ => x)
  }

  lemma {:induction false} ZeroValue(s: seq<nat>, base: nat)
    requires forall i | 0 <= i < |s| :: s[i] == 0
    ensures BigEndian(s, base) == 0
  {
    if s != [] {
      ZeroValue(s[..|s| - 1], base);
    }
  }

  /** Digits of a value are the digits it was written with, leading zeros dropped. */
  lemma {:induction false} DigitsOfValue(s: seq<nat>, base: nat)
    requires base > 1 && Below(s, base)
    ensures Digits(BigEndian(s, base), base) == s[Leading<nat>(s, 0)..]
  {
    var k := Leading<nat>(s, 0);
    if k == |s| {
      ZeroValue(s, base);
    } else {
      var init, last := s[..|s| - 1], s[|s| - 1];
      DigitsOfValue(init, base);
      LeadingOfInit<nat>(s, 0);
      var q := BigEndian(init, base);
      QuotientRemainder(q, last, base);
      if k == |s| - 1 {
        ZeroValue(init, base);
      } else {
        NonZeroValue(init, base);
      }
      assert s[k..] == init[Leading<nat>(init, 0)..] + [last];
    }
  }

  lemma LeadingOfInit<T>(s: seq<T>, x: T)
    requires s != [] && Leading(s, x) < |s|
    ensures Leading(s[..|s| - 1], x) == Leading(s, x)
  {
    LeadingUnique<T>(s[..|s| - 1], x, Leading(s, x));
  }

  lemma {:induction false} LeadingUnique<T>(s: seq<T>, x: T, k: nat)
    requires k <= |s| && (forall i | 0 <= i < k :: s[i] == x) && (k < |s| ==> s[k] != x)
    ensures Leading(s, x) == k
  {
    if k > 0 {
      LeadingUnique(s[1..], x, k - 1);
    }
  }

  lemma {:induction false} NonZeroValue(s: seq<nat>, base: nat)
    requires base > 1 && Leading<nat>(s, 0) < |s|
    ensures BigEndian(s, base) > 0
  {
    var k := Leading<nat>(s, 0);
    if k < |s| - 1 {
      LeadingOfInit<nat>(s, 0);
      NonZeroValue(s[..|s| - 1], base);
      assert BigEndian(s[..|s| - 1], base) * base >= 1;
    }
  }

  // ----- how many digits -----

  lemma {:induction false} PowPositive(base: nat, k: nat)
    requires base > 0
    ensures Pow(base, k) > 0
  {
    if k > 0 {
      PowPositive(base, k - 1);
    }
  }

  lemma DivideBound(n: nat, base: nat, m: nat)
    requires base > 0
    ensures n < base * m <==> n / base < m
  {
    assert n == base * (n / base) + n % base;
    if n / base < m {
      assert base * (n / base + 1) <= base * m;
      assert base * (n / base + 1) == base * (n / base) + base;
    } else {
      assert base * (n / base) >= base * m;
    }
  }

  /** n has at most k digits exactly when n < base^k. */
  lemma {:induction false} DigitCount(n: nat, base: nat, k: nat)
    requires base > 1
    ensures |Digits(n, base)| <= k <==> n < Pow(base, k)
  {
    PowPositive(base, k);
    if n > 0 && k > 0 {
      Shrinks(n, base);
      DigitCount(n / base, base, k - 1);
      PowPositive(base, k - 1);
      DivideBound(n, base, Pow(base, k - 1));
    }
  }

  /** The value of k digits is below base^k. */
  lemma {:induction false} ValueBound(s: seq<nat>, base: nat)
    requires base > 0 && Below(s, base)
    ensures BigEndian(s, base) < Pow(base, |s|)
  {
    if s != [] {
      var init := s[..|s| - 1];
      ValueBound(init, base);
      HornerBound(BigEndian(init, base), s[|s| - 1], base, Pow(base, |init|));
    }
  }

  /** A non-zero leading digit puts the value at base^(k - 1) or more. */
  lemma {:induction false} ValueAtLeast(s: seq<nat>, base: nat)
    requires base > 0 && s != [] && s[0] != 0
    ensures BigEndian(s, base) >= Pow(base, |s| - 1)
  {
    if |s| > 1 {
      var init := s[..|s| - 1];
      ValueAtLeast(init, base);
      PowPositive(base, |init| - 1);
      MulMonotone(Pow(base, |init| - 1), BigEndian(init, base), base);
      assert Pow(base, |s| - 1) == base * Pow(base, |init| - 1);
    }
  }

  // ----- least significant first -----

  lemma {:induction false} LittleEndianAppend(s: seq<nat>, x: nat, base: nat)
    ensures LittleEndian(s + [x], base) == LittleEndian(s, base) + Pow(base, |s|) * x
  {
    if s == [] {
      assert s + [x] == [x];
    } else {
      assert (s + [x])[1..] == s[1..] + [x];
      LittleEndianAppend(s[1..], x, base);
      DistributePower(base, LittleEndian(s[1..], base), Pow(base, |s| - 1), x);
    }
  }

  lemma DistributePower(b: int, v: int, q: int, x: int)
    ensures b * (v + q * x) == b * v + (b * q) * x
  {
    assert b * (q * x) == (b * q) * x;
  }

  /** Reading a little-endian numeral backwards. */
  lemma {:induction false} ReversedValue(s: seq<nat>, base: nat)
    ensures BigEndian(Reverse(s), base) == LittleEndian(s, base)
  {
    if s != [] {
      ReversedValue(s[1..], base);
      var r := Reverse(s[1..]) + [s[0]];
      assert r[..|r| - 1] == Reverse(s[1..]);
    }
  }

  function Reverse<T>(s: seq<T>): (r: seq<T>)
    ensures |r| == |s| && forall i | 0 <= i < |s| :: r[i] == s[|s| - 1 - i]
  {
    if s == [] then [] else Reverse(s[1..]) + [s[0]]
  }

  // ----- numbers in a fixed number of bytes -----

  /** `n` in `k` bytes, least significant first. */
  function LittleFixed(n: nat, k: nat): (r: seq<byte>)
    ensures |r| == k
  {
    if k == 0 then [] else [n % 256] + LittleFixed(n / 256, k - 1)
  }

  lemma {:induction false} LittleFixedValue(n: nat, k: nat)
    requires n < Pow(256, k)
    ensures LittleEndian(LittleFixed(n, k), 256) == n
  {
    if k > 0 {
      DivideBound(n, 256, Pow(256, k - 1));
      LittleFixedValue(n / 256, k - 1);
      assert LittleFixed(n, k)[1..] == LittleFixed(n / 256, k - 1);
      Division(n, 256);
    }
  }

  /** The value of k bytes is below 256^k. */
  lemma LittleBound(s: seq<nat>, base: nat)
    requires base > 0 && Below(s, base)
    ensures LittleEndian(s, base) < Pow(base, |s|)
  {
    ReversedValue(s, base);
    ValueBound(Reverse(s), base);
  }
}
