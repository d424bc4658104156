/** Facts about products, quotients and remainders. */
module Arithmetic {

  lemma MulMonotone(a: nat, b: nat, c: nat)
    requires a <= b
    ensures a * c <= b * c
  {
  }

  lemma MultipleMod(k: int, p: nat)
    requires p > 0
    ensures (k * p) % p == 0
  {
    assert k * p == p * k + 0;
    DivModUnique(k * p, p, k, 0);
  }

  lemma DivModUnique(a: int, p: nat, q: int, r: int)
    requires p > 0 && 0 <= r < p && a == p * q + r
    ensures a / p == q && a % p == r
  {
    assert a == p * (a / p) + a % p;
    assert p * (a / p - q) == r - a % p;
    MultipleFar(p, a / p - q);
  }

  lemma MultipleFar(p: int, d: int)
    requires p > 0
    ensures d >= 1 ==> p * d >= p
    ensures d <= -1 ==> p * d <= -p
  {
  }

  lemma Division(n: nat, b: nat)
    requires b > 0
    ensures n == (n / b) * b + n % b && n % b < b
  {
  }

  /** One more digit keeps a value below the next power. */
  lemma HornerBound(v: nat, x: nat, b: nat, m: nat)
    requires v < m && x < b
    ensures v * b + x < b * m
  {
    MulMonotone(v + 1, m, b);
    assert (v + 1) * b == v * b + b;
  }
}
