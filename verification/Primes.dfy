/** Arithmetic modulo a prime, from the definition of a prime up to Fermat's
    little theorem and the character of 2: what the curve test rests on.
 */
module Primes {
  import opened Arithmetic

  // ----- congruence -----

  ghost predicate Cong(a: int, b: int, p: nat)
    requires p > 0
  {
    (a - b) % p == 0
  }

  /** a and b differ by the multiple k of p. */
  lemma CongBy(a: int, b: int, p: nat, k: int)
    requires p > 0 && a - b == k * p
    ensures Cong(a, b, p)
  {
    MultipleMod(k, p);
  }

  lemma Quotient(a: int, b: int, p: nat) returns (k: int)
    requires p > 0 && Cong(a, b, p)
    ensures a - b == k * p
  {
    k := (a - b) / p;
    assert a - b == p * k + 0;
  }

  lemma CongSym(a: int, b: int, p: nat)
    requires p > 0 && Cong(a, b, p)
    ensures Cong(b, a, p)
  {
    var k := Quotient(a, b, p);
    assert b - a == (-k) * p;
    CongBy(b, a, p, -k);
  }

  lemma CongTrans(a: int, b: int, c: int, p: nat)
    requires p > 0 && Cong(a, b, p) && Cong(b, c, p)
    ensures Cong(a, c, p)
  {
    var k := Quotient(a, b, p);
    var l := Quotient(b, c, p);
    assert a - c == (k + l) * p;
    CongBy(a, c, p, k + l);
  }

  lemma CongAdd(a: int, a': int, b: int, b': int, p: nat)
    requires p > 0 && Cong(a, a', p) && Cong(b, b', p)
    ensures Cong(a + b, a' + b', p)
  {
    var k := Quotient(a, a', p);
    var l := Quotient(b, b', p);
    assert (a + b) - (a' + b') == (k + l) * p;
    CongBy(a + b, a' + b', p, k + l);
  }

  lemma CongMul(a: int, a': int, b: int, b': int, p: nat)
    requires p > 0 && Cong(a, a', p) && Cong(b, b', p)
    ensures Cong(a * b, a' * b', p)
  {
    var k := Quotient(a, a', p);
    var l := Quotient(b, b', p);
    calc {
      a * b - a' * b';
      a * (b - b') + (a - a') * b';
      a * (l * p) + (k * p) * b';
      (a * l + k * b') * p;
    }
    CongBy(a * b, a' * b', p, a * l + k * b');
  }

  lemma CongMod(a: int, p: nat)
    requires p > 0
    ensures Cong(a % p, a, p) && Cong(a, a % p, p)
  {
    assert a == p * (a / p) + a % p;
    CongBy(a, a % p, p, a / p);
    CongSym(a, a % p, p);
  }

  /** Congruent residues are equal residues. */
  lemma CongResidues(a: int, b: int, p: nat)
    requires p > 0
    ensures Cong(a, b, p) <==> a % p == b % p
  {
    if Cong(a, b, p) {
      var k := Quotient(a, b, p);
      assert a == p * (b / p + k) + b % p;
      DivModUnique(a, p, b / p + k, b % p);
    }
    if a % p == b % p {
      assert a - b == (a / p - b / p) * p;
      CongBy(a, b, p, a / p - b / p);
    }
  }

  // ----- powers -----

  function Pow(x: int, n: nat): int {
    if n == 0 then 1 else x * Pow(x, n - 1)
  }

  /** `pow(x, n, p)`. */
  function PowMod(x: int, n: nat, p: nat): (r: nat)
    requires p > 0
    ensures r < p
  {
    Pow(x, n) % p
  }

  lemma {:induction false} PowAdd(x: int, m: nat, n: nat)
    ensures Pow(x, m + n) == Pow(x, m) * Pow(x, n)
  {
    if m > 0 {
      PowAdd(x, m - 1, n);
      assert Pow(x, m + n) == x * Pow(x, m - 1 + n);
      assert x * (Pow(x, m - 1) * Pow(x, n)) == (x * Pow(x, m - 1)) * Pow(x, n);
    }
  }

  lemma {:induction false} PowMul(x: int, m: nat, n: nat)
    ensures m * n >= 0 && Pow(x, m * n) == Pow(Pow(x, m), n)
  {
    if n > 0 {
      PowMul(x, m, n - 1);
      assert m * n == m + m * (n - 1);
      PowAdd(x, m, m * (n - 1));
    }
  }

  lemma {:induction false} PowNonNegative(x: nat, n: nat)
    ensures Pow(x, n) >= 0
  {
    if n > 0 {
      PowNonNegative(x, n - 1);
    }
  }

  lemma {:induction false} CongPow(a: int, b: int, n: nat, p: nat)
    requires p > 0 && Cong(a, b, p)
    ensures Cong(Pow(a, n), Pow(b, n), p)
  {
    if n == 0 {
      CongBy(1, 1, p, 0);
    } else {
      CongPow(a, b, n - 1, p);
      CongMul(a, b, Pow(a, n - 1), Pow(b, n - 1), p);
    }
  }

  // ----- primes and Euclid's lemma -----

  ghost predicate Prime(p: nat) {
    p > 1 && forall d | 1 < d < p :: p % d != 0
  }

  lemma RemainderTimes(p: int, a: int, b: int, q: int, r: int, k: int)
    requires p == a * q + r && a * b == k * p
    ensures r * b == (b - q * k) * p
  {
    calc {
      r * b;
      (p - a * q) * b;
      b * p - q * (a * b);
      b * p - q * (k * p);
      (b - q * k) * p;
    }
  }

  lemma {:induction false} EuclidSmall(p: nat, a: nat, b: int)
    requires Prime(p) && 0 < a < p && Cong(a * b, 0, p)
    ensures Cong(b, 0, p)
    decreases a
  {
    if a == 1 {
      assert a * b == b;
    } else {
      var q, r := p / a, p % a;
      assert p == a * q + r && 0 < r < a;
      hide Cong;
      var k := Quotient(a * b, 0, p);
      RemainderTimes(p, a, b, q, r, k);
      CongBy(r * b, 0, p, b - q * k);
      EuclidSmall(p, r, b);
    }
  }

  /** A prime that divides a product divides a factor. */
  lemma Euclid(p: nat, a: int, b: int)
    requires Prime(p) && Cong(a * b, 0, p)
    ensures Cong(a, 0, p) || Cong(b, 0, p)
  {
    CongMod(a, p);
    if a % p != 0 {
      CongBy(b, b, p, 0);
      CongMul(a % p, a, b, b, p);
      CongTrans((a % p) * b, a * b, 0, p);
      EuclidSmall(p, a % p, b);
    }
  }

  lemma Cancel(p: nat, c: int, a: int, b: int)
    requires Prime(p) && !Cong(c, 0, p) && Cong(c * a, c * b, p)
    ensures Cong(a, b, p)
  {
    assert c * a - c * b == c * (a - b);
    Euclid(p, c, a - b);
  }

  // ----- Fermat's little theorem, by the binomial theorem -----

  ghost function Binom(n: nat, k: nat): nat {
    if k == 0 then 1 else if n == 0 then 0 else Binom(n - 1, k - 1) + Binom(n - 1, k)
  }

  lemma {:induction false} BinomAbsorb(n: nat, k: nat)
    requires n > 0 && k > 0
    ensures k * Binom(n, k) == n * Binom(n - 1, k - 1)
  {
    if n == 1 {
      assert Binom(0, k) == 0;
      if k > 1 { assert Binom(0, k - 1) == 0; }
    } else {
      BinomAbsorb(n - 1, k);
      if k == 1 {
        assert Binom(n - 1, 0) == 1 && Binom(n - 2, 0) == 1;
      } else {
        BinomAbsorb(n - 1, k - 1);
        AbsorbSum(k, n, Binom(n - 1, k - 1), Binom(n - 1, k), Binom(n - 2, k - 2), Binom(n - 2, k - 1));
      }
    }
  }

  lemma AbsorbSum(k: int, n: int, x: int, y: int, u: int, w: int)
    requires k * y == (n - 1) * w && (k - 1) * x == (n - 1) * u && x == u + w
    ensures k * (x + y) == n * x
  {
    calc {
      k * (x + y);
      k * x + k * y;
      x + (k - 1) * x + (n - 1) * w;
      x + (n - 1) * u + (n - 1) * w;
      x + (n - 1) * (u + w);
      x + (n - 1) * x;
      n * x;
    }
  }

  lemma {:induction false} BinomBeyond(n: nat, k: nat)
    requires k > n
    ensures Binom(n, k) == 0
  {
    if n > 0 {
      BinomBeyond(n - 1, k - 1);
      BinomBeyond(n - 1, k);
    }
  }

  lemma {:induction false} BinomFull(n: nat)
    ensures Binom(n, n) == 1
  {
    if n > 0 {
      BinomFull(n - 1);
      BinomBeyond(n - 1, n);
    }
  }

  /** The first m terms of the binomial expansion of (a + 1)^n. */
  ghost function Expansion(n: nat, m: nat, a: int): int {
    if m == 0 then 0 else Expansion(n, m - 1, a) + Binom(n, m - 1) * Pow(a, m - 1)
  }

  lemma {:induction false} ExpansionStep(n: nat, m: nat, a: int)
    ensures Expansion(n + 1, m + 1, a) == Expansion(n, m + 1, a) + a * Expansion(n, m, a)
  {
    if m > 0 {
      ExpansionStep(n, m - 1, a);
      assert Pow(a, m) == a * Pow(a, m - 1);
      assert Binom(n + 1, m) == Binom(n, m - 1) + Binom(n, m);
      ShiftTerm(a, Expansion(n, m, a), Expansion(n, m - 1, a), Binom(n, m - 1), Binom(n, m), Pow(a, m - 1));
    }
  }

  lemma ShiftTerm(a: int, e0: int, e1: int, b1: int, b0: int, x: int)
    ensures e0 + a * e1 + (b1 + b0) * (a * x) == (e0 + b0 * (a * x)) + a * (e1 + b1 * x)
  {
    assert (b1 + b0) * (a * x) == b1 * (a * x) + b0 * (a * x);
    assert b1 * (a * x) == a * (b1 * x);
    assert a * (e1 + b1 * x) == a * e1 + a * (b1 * x);
  }

  lemma {:induction false} BinomialTheorem(n: nat, a: int)
    ensures Expansion(n, n + 1, a) == Pow(a + 1, n)
  {
    if n > 0 {
      BinomialTheorem(n - 1, a);
      ExpansionStep(n - 1, n, a);
      BinomBeyond(n - 1, n);
      assert Expansion(n - 1, n + 1, a) == Expansion(n - 1, n, a);
      assert (a + 1) * Pow(a + 1, n - 1) == Pow(a + 1, n - 1) + a * Pow(a + 1, n - 1);
    }
  }

  lemma BinomDivisible(p: nat, k: nat)
    requires Prime(p) && 0 < k < p
    ensures Cong(Binom(p, k), 0, p)
  {
    BinomAbsorb(p, k);
    assert k * Binom(p, k) == Binom(p - 1, k - 1) * p;
    CongBy(k * Binom(p, k), 0, p, Binom(p - 1, k - 1));
    EuclidSmall(p, k, Binom(p, k));
  }

  lemma {:induction false} ExpansionMod(p: nat, m: nat, a: int)
    requires Prime(p) && 0 < m <= p
    ensures Cong(Expansion(p, m, a), 1, p)
  {
    if m == 1 {
      assert Expansion(p, 1, a) == Expansion(p, 0, a) + Binom(p, 0) * Pow(a, 0) == 1;
      CongBy(1, 1, p, 0);
    } else {
      ExpansionMod(p, m - 1, a);
      BinomDivisible(p, m - 1);
      CongBy(Pow(a, m - 1), Pow(a, m - 1), p, 0);
      CongMul(Binom(p, m - 1), 0, Pow(a, m - 1), Pow(a, m - 1), p);
      CongAdd(Expansion(p, m - 1, a), 1, Binom(p, m - 1) * Pow(a, m - 1), 0 * Pow(a, m - 1), p);
    }
  }

  lemma {:induction false} Fermat(p: nat, a: nat)
    requires Prime(p)
    ensures Cong(Pow(a, p), a, p)
  {
    if a == 0 {
      assert Pow(0, p) == 0 * Pow(0, p - 1) == 0;
      CongBy(0, 0, p, 0);
    } else {
      Fermat(p, a - 1);
      BinomialTheorem(p, a - 1);
      ExpansionMod(p, p, a - 1);
      BinomFull(p);
      assert Pow(a, p) == Expansion(p, p, a - 1) + Pow(a - 1, p);
      CongAdd(Expansion(p, p, a - 1), 1, Pow(a - 1, p), a - 1, p);
    }
  }

  /** a^(p - 1) = 1 for every a that p does not divide. */
  lemma FermatUnit(p: nat, a: nat)
    requires Prime(p) && !Cong(a, 0, p)
    ensures Cong(Pow(a, p - 1), 1, p)
  {
    Fermat(p, a);
    assert Pow(a, p) == a * Pow(a, p - 1);
    assert a * 1 == a;
    Cancel(p, a, Pow(a, p - 1), 1);
  }

  // ----- the character of 2 when p = 8j + 5 -----

  ghost function Factorial(n: nat): nat {
    if n == 0 then 1 else n * Factorial(n - 1)
  }

  /** 2 * 4 * ... * 2t. */
  ghost function Evens(t: nat): nat {
    if t == 0 then 1 else 2 * t * Evens(t - 1)
  }

  /** 1 * 3 * ... * (2t - 1). */
  ghost function Odds(t: nat): nat {
    if t == 0 then 1 else (2 * t - 1) * Odds(t - 1)
  }

  /** The largest t of the factors of Evens(m). */
  ghost function TopEvens(m: nat, t: nat): int {
    if t == 0 then 1 else TopEvens(m, t - 1) * (2 * m - 2 * (t - 1))
  }

  lemma {:induction false} EvensArePowers(m: nat)
    ensures Evens(m) == Pow(2, m) * Factorial(m)
  {
    if m > 0 {
      EvensArePowers(m - 1);
      calc {
        Evens(m);
        2 * m * (Pow(2, m - 1) * Factorial(m - 1));
        (2 * Pow(2, m - 1)) * (m * Factorial(m - 1));
      }
    }
  }

  lemma {:induction false} FactorialSplits(t: nat)
    ensures Factorial(2 * t) == Evens(t) * Odds(t)
  {
    if t > 0 {
      FactorialSplits(t - 1);
      var e, o := Evens(t - 1), Odds(t - 1);
      var even, odd := 2 * t, 2 * t - 1;
      FactorialTwice(t);
      assert Evens(t) == even * e && Odds(t) == odd * o;
      hide Factorial, Evens, Odds;
      FourFactors(even, odd, e, o);
    }
  }

  lemma FactorialTwice(t: nat)
    requires t > 0
    ensures Factorial(2 * t) == 2 * t * ((2 * t - 1) * Factorial(2 * (t - 1)))
  {
    assert Factorial(2 * t - 1) == (2 * t - 1) * Factorial(2 * t - 2);
  }

  lemma FourFactors(a: int, b: int, e: int, o: int)
    ensures a * (b * (e * o)) == (a * e) * (b * o)
  {
  }

  lemma {:induction false} EvensSplit(m: nat, t: nat)
    requires t <= m
    ensures Evens(m) == Evens(m - t) * TopEvens(m, t)
  {
    if t > 0 {
      EvensSplit(m, t - 1);
      var k := m - (t - 1);
      assert Evens(k) == 2 * k * Evens(k - 1);
      assert 2 * k == 2 * m - 2 * (t - 1);
      MoveFactor(2 * k, Evens(k - 1), TopEvens(m, t - 1));
    }
  }

  lemma MoveFactor(c: int, e: int, t: int)
    ensures (c * e) * t == e * (t * c)
  {
  }

  ghost function Sign(t: nat): int {
    if t % 2 == 0 then 1 else -1
  }

  lemma {:induction false} TopEvensMod(p: nat, m: nat, t: nat)
    requires p == 2 * m + 1 && t <= m
    ensures Cong(TopEvens(m, t), Sign(t) * Odds(t), p)
  {
    if t == 0 {
      CongBy(1, 1, p, 0);
    } else {
      TopEvensMod(p, m, t - 1);
      var last, odd := 2 * m - 2 * (t - 1), 2 * t - 1;
      SignFlips(Sign(t - 1), odd, Odds(t - 1));
      assert -Sign(t - 1) == Sign(t);
      hide Cong;
      assert last - (-odd) == 1 * p;
      CongBy(last, -odd, p, 1);
      CongMul(TopEvens(m, t - 1), Sign(t - 1) * Odds(t - 1), last, -odd, p);
    }
  }

  lemma SignFlips(s: int, odd: int, rest: int)
    ensures (s * rest) * (-odd) == (-s) * (odd * rest)
  {
  }

  lemma {:induction false} FactorialUnit(p: nat, n: nat)
    requires Prime(p) && n < p
    ensures !Cong(Factorial(n), 0, p)
  {
    if n > 0 {
      FactorialUnit(p, n - 1);
      if Cong(n * Factorial(n - 1), 0, p) {
        EuclidSmall(p, n, Factorial(n - 1));
      }
    } else {
      assert (1 - 0) % p == 1;
    }
  }

  /** For p = 8j + 5, 2 is a non-residue in the sense the curve test needs:
      2^((p - 1) / 2) = -1. */
  lemma TwoIsNonResidue(p: nat)
    requires Prime(p) && p % 8 == 5
    ensures Cong(Pow(2, (p - 1) / 2), -1, p)
  {
    var m := (p - 1) / 2;
    var t := m / 2;
    assert m == 2 * t && t % 2 == 1 && p == 2 * m + 1 && Sign(t) == -1;
    hide Cong, Prime, Pow, Factorial, Evens, Odds, TopEvens, Sign;
    EvensArePowers(m);
    EvensSplit(m, t);
    FactorialSplits(t);
    TopEvensMod(p, m, t);
    CongBy(Evens(t), Evens(t), p, 0);
    CongMul(Evens(t), Evens(t), TopEvens(m, t), Sign(t) * Odds(t), p);
    FactorialUnit(p, m);
    SignedCancel(p, Factorial(m), Pow(2, m), Evens(t), TopEvens(m, t), Odds(t));
  }

  lemma SignedCancel(p: nat, f: int, x: int, e: int, top: int, o: int)
    requires Prime(p) && !Cong(f, 0, p)
    requires x * f == e * top && f == e * o && Cong(e * top, e * (-1 * o), p)
    ensures Cong(x, -1, p)
  {
    assert f * x == e * top;
    assert e * (-1 * o) == -(e * o) == f * (-1);
    Cancel(p, f, x, -1);
  }
}
