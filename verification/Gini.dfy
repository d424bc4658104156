/** The Gini coefficient, in exact rationals: the formula over sorted values is the
    mean difference of all pairs over twice the mean.
 */
module Gini {
  import opened Orders

  function Value(): nat -> int { (x: nat) => x as int }

  function Distance(x: nat, y: nat): nat { if x < y then y - x else x - y }

  function DistanceFrom(x: nat): nat -> int { (y: nat) => Distance(x, y) as int }

  /** The distances of x to all values, added up. */
  ghost function Spread(x: nat, s: seq<nat>): int { SumBy(DistanceFrom(x), s) }

  ghost function SpreadIn(s: seq<nat>): nat -> int { (x: nat) => Spread(x, s) }

  /** The distances of all ordered pairs, added up. */
  ghost function PairDistance(s: seq<nat>): int { SumBy(SpreadIn(s), s) }

  ghost function Sum(s: seq<nat>): int { SumBy(Value(), s) }

  /** Each value times its place, counted from 1. */
  function Weighted(s: seq<nat>): int {
    if s == [] then 0 else Weighted(s[..|s| - 1]) + |s| * s[|s| - 1]
  }

  // ----- one more value -----

  lemma {:induction false} SpreadSymmetric(s: seq<nat>, x: nat)
    ensures SumBy((y: nat) => Distance(y, x) as int, s) == Spread(x, s)
  {
    if s != [] {
      SpreadSymmetric(s[1..], x);
    }
  }

  lemma SpreadAppend(x: nat, s: seq<nat>, y: nat)
    ensures Spread(x, s + [y]) == Spread(x, s) + Distance(x, y)
  {
    SumByConcat(DistanceFrom(x), s, [y]);
    assert [y][1..] == [];
  }

  lemma {:induction false} SpreadInAppend(t: seq<nat>, s: seq<nat>, y: nat)
    ensures SumBy(SpreadIn(s + [y]), t) == SumBy(SpreadIn(s), t) + Spread(y, t)
  {
    if t != [] {
      SpreadAppend(t[0], s, y);
      SpreadInAppend(t[1..], s, y);
    }
  }

  lemma PairDistanceAppend(s: seq<nat>, y: nat)
    ensures PairDistance(s + [y]) == PairDistance(s) + 2 * Spread(y, s)
  {
    SumByConcat(SpreadIn(s + [y]), s, [y]);
    assert [y][1..] == [];
    SpreadInAppend(s, s, y);
    SpreadAppend(y, s, y);
  }

  lemma SumAppend(s: seq<nat>, y: nat)
    ensures Sum(s + [y]) == Sum(s) + y
  {
    SumByConcat(Value(), s, [y]);
    assert [y][1..] == [];
  }

  /** A value that is at least all others is at distance |s| * y - Sum(s) in all. */
  lemma {:induction false} SpreadOfLargest(y: nat, s: seq<nat>)
    requires forall i | 0 <= i < |s| :: s[i] <= y
    ensures Spread(y, s) == |s| * y - Sum(s)
  {
    if s != [] {
      SpreadOfLargest(y, s[1..]);
      assert |s| * y == y + |s[1..]| * y;
    }
  }

  // ----- the formula -----

  /** On sorted values the weighted sum is the pair distance in disguise. */
  lemma {:induction false} WeightedIsPairDistance(s: seq<nat>)
    requires Sorted(NatLe(), s)
    ensures 4 * Weighted(s) - 2 * (|s| + 1) * Sum(s) == PairDistance(s)
  {
    if s != [] {
      var n := |s| - 1;
      var init, last := s[..n], s[n];
      assert s == init + [last];
      WeightedIsPairDistance(init);
      forall i | 0 <= i < |init|
        ensures init[i] <= last
      {
        assert NatLe()(s[i], s[n]);
      }
      PairDistanceAppend(init, last);
      SumAppend(init, last);
      SpreadOfLargest(last, init);
      Step(n, Weighted(init), Sum(init), last);
    }
  }

  lemma Step(n: int, w: int, s: int, x: int)
    ensures 4 * (w + (n + 1) * x) - 2 * (n + 2) * (s + x)
            == (4 * w - 2 * (n + 1) * s) + 2 * (n * x - s)
  {}

  /** The order of the values does not matter. */
  lemma PairDistanceOrderFree(a: seq<nat>, b: seq<nat>)
    requires multiset(a) == multiset(b)
    ensures PairDistance(a) == PairDistance(b) && Sum(a) == Sum(b)
  {
    forall x: nat
      ensures SpreadIn(a)(x) == SpreadIn(b)(x)
    {
      SumByPermutation(DistanceFrom(x), a, b);
    }
    SumBySame(SpreadIn(a), SpreadIn(b), a);
    SumByPermutation(SpreadIn(b), a, b);
    SumByPermutation(Value(), a, b);
  }

  lemma {:induction false} SumBySame<T(!new)>(f: T -> int, g: T -> int, s: seq<T>)
    requires forall x :: f(x) == g(x)
    ensures SumBy(f, s) == SumBy(g, s)
  {
    if s != [] {
      SumBySame(f, g, s[1..]);
    }
  }

  // ----- bounds -----

  lemma {:induction false} SpreadBound(y: nat, s: seq<nat>)
    ensures 0 <= Spread(y, s) <= |s| * y + Sum(s)
  {
    if s != [] {
      SpreadBound(y, s[1..]);
      assert |s| * y == y + |s[1..]| * y;
    }
  }

  lemma {:induction false} PairDistanceBound(s: seq<nat>)
    requires s != []
    ensures 0 <= PairDistance(s) <= 2 * (|s| - 1) * Sum(s)
    ensures Sum(s) >= 0
  {
    var n := |s| - 1;
    var init, last := s[..n], s[n];
    assert s == init + [last];
    PairDistanceAppend(init, last);
    SumAppend(init, last);
    SpreadBound(last, init);
    if n == 0 {
      assert init == [];
    } else {
      PairDistanceBound(init);
      BoundStep(n, PairDistance(init), Sum(init), last, Spread(last, init));
    }
  }

  lemma BoundStep(n: int, p: int, s: int, x: int, d: int)
    requires p <= 2 * (n - 1) * s && d <= n * x + s
    ensures p + 2 * d <= 2 * n * (s + x)
  {}

  lemma InHeadOrTail<T>(s: seq<T>)
    requires s != []
    ensures forall x :: x in s <==> x == s[0] || x in s[1..]
  {
    assert s == [s[0]] + s[1..];
  }

  lemma {:induction false} SpreadZero(y: nat, s: seq<nat>)
    ensures Spread(y, s) == 0 <==> forall x: nat | x in s :: x == y
  {
    if s != [] {
      SpreadBound(y, s[1..]);
      SpreadZero(y, s[1..]);
      InHeadOrTail<nat>(s);
      var first, rest := Distance(y, s[0]), Spread(y, s[1..]);
      assert Spread(y, s) == first + rest && first >= 0 && rest >= 0;
      assert first == 0 <==> s[0] == y;
      assert s[0] in s;
    }
  }

  /** There is no distance exactly when all values are the same. */
  lemma {:induction false} PairDistanceZero(s: seq<nat>)
    ensures PairDistance(s) == 0 <==> forall x, y | x in s && y in s :: x == y
  {
    if s != [] {
      var n := |s| - 1;
      var init, last := s[..n], s[n];
      assert s == init + [last];
      PairDistanceAppend(init, last);
      SpreadBound(last, init);
      SpreadZero(last, init);
      PairDistanceZero(init);
      if init != [] {
        PairDistanceBound(init);
      }
      AllSame(init, last);
    }
  }

  lemma AllSame(s: seq<nat>, y: nat)
    ensures (forall a, b | a in s + [y] && b in s + [y] :: a == b) <==>
            (forall a, b | a in s && b in s :: a == b) && forall a: nat | a in s :: a == y
  {
    var longer := s + [y];
    assert forall x :: x in longer <==> x in s || x == y;
    if forall a, b | a in longer && b in longer :: a == b {
      assert y in longer;
    }
  }

  // ----- the routine -----

  lemma RationalForm(n: int, w: int, s: int, p: int)
    requires n > 0 && s > 0 && 4 * w - 2 * (n + 1) * s == p
    ensures 2.0 * w as real / (n as real * s as real) - (n as real + 1.0) / n as real
            == p as real / (2.0 * n as real * s as real)
  {
    var N, S, W, P := n as real, s as real, w as real, p as real;
    assert ((n + 1) * s) as real == (N + 1.0) * S;
    assert 4.0 * W - 2.0 * ((N + 1.0) * S) == P;
    var d := 2.0 * N * S;
    assert d > 0.0 && N * S > 0.0;
    Quotients(N, S, W, d);
  }

  lemma Quotients(N: real, S: real, W: real, d: real)
    requires N > 0.0 && S > 0.0 && d == 2.0 * N * S && d > 0.0 && N * S > 0.0
    ensures 2.0 * W / (N * S) - (N + 1.0) / N == (4.0 * W - 2.0 * ((N + 1.0) * S)) / d
  {
    assert 2.0 * W / (N * S) == 4.0 * W / d by { Scale(2.0 * W, N * S, 2.0); }
    assert (N + 1.0) / N == ((N + 1.0) * (2.0 * S)) / d by { Scale(N + 1.0, N, 2.0 * S); }
  }

  lemma Scale(a: real, b: real, c: real)
    requires b > 0.0 && c > 0.0
    ensures b * c > 0.0 && a / b == (a * c) / (b * c)
  {
    var q := a / b;
    assert a == q * b;
    assert a * c == q * (b * c);
  }

  lemma RationalBounds(n: int, s: int, p: int)
    requires n > 0 && s > 0 && 0 <= p <= 2 * (n - 1) * s
    ensures 0.0 <= p as real / (2.0 * n as real * s as real) <= (n as real - 1.0) / n as real
  {
    var N, S, P := n as real, s as real, p as real;
    assert P <= (2 * (n - 1) * s) as real == (N - 1.0) * (2.0 * S);
    assert 2.0 * N * S > 0.0;
    assert N * (2.0 * S) == 2.0 * N * S;
    Scale(N - 1.0, N, 2.0 * S);
    Divide(P, (N - 1.0) * (2.0 * S), N * (2.0 * S));
  }

  lemma Divide(a: real, b: real, c: real)
    requires 0.0 <= a <= b && c > 0.0
    ensures 0.0 <= a / c <= b / c
  {}

  lemma ZeroQuotient(p: int, n: int, s: int)
    requires n > 0 && s > 0
    ensures 2.0 * n as real * s as real > 0.0
    ensures p as real / (2.0 * n as real * s as real) == 0.0 <==> p == 0
  {
    var d := 2.0 * n as real * s as real;
    assert d > 0.0;
    assert p as real == (p as real / d) * d;
  }

  /** The coefficient by its definition over pairs. */
  ghost function MeanDifference(values: seq<nat>): real
    requires values != [] && Sum(values) > 0
  {
    ZeroQuotient(PairDistance(values), |values|, Sum(values));
    PairDistance(values) as real / (2.0 * |values| as real * Sum(values) as real)
  }

  /** It lies between 0 and (n - 1) / n, and is 0 exactly for equal values. */
  lemma MeanDifferenceBounds(values: seq<nat>)
    requires values != [] && Sum(values) > 0
    ensures 0.0 <= MeanDifference(values) <= (|values| as real - 1.0) / |values| as real
    ensures MeanDifference(values) == 0.0 <==> forall x, y | x in values && y in values :: x == y
  {
    PairDistanceBound(values);
    RationalBounds(|values|, Sum(values), PairDistance(values));
    PairDistanceZero(values);
    ZeroQuotient(PairDistance(values), |values|, Sum(values));
  }

  /** The formula as the routine evaluates it. */
  function Formula(n: nat, w: int, s: int): real
    requires n > 0 && s > 0
  {
    PositiveProduct(n, s);
    2.0 * w as real / (n as real * s as real) - (n as real + 1.0) / n as real
  }

  /** The weighted formula over the sorted values is that coefficient. */
  lemma WeightedFormula(values: seq<nat>, sorted: seq<nat>)
    requires values != [] && Sum(values) > 0 && multiset(sorted) == multiset(values) && Sorted(NatLe(), sorted)
    ensures Formula(|values|, Weighted(sorted), Sum(values)) == MeanDifference(values)
  {
    SameMultisetSameElements(sorted, values);
    PairDistanceOrderFree(sorted, values);
    WeightedIsPairDistance(sorted);
    FormulaIs(values, Weighted(sorted));
  }

  lemma FormulaIs(values: seq<nat>, w: int)
    requires values != [] && Sum(values) > 0
    requires 4 * w - 2 * (|values| + 1) * Sum(values) == PairDistance(values)
    ensures Formula(|values|, w, Sum(values)) == MeanDifference(values)
  {
    RationalForm(|values|, w, Sum(values), PairDistance(values));
  }

  lemma PositiveProduct(n: int, s: int)
    requires n > 0 && s > 0
    ensures n as real * s as real > 0.0
  {}

  /** The coefficient of the values: none for no values or none above zero. */
  method Coefficient(values: seq<nat>) returns (r: Option<real>)
    ensures r.None? <==> values == [] || Sum(values) <= 0
    ensures r.Some? ==> r.value == MeanDifference(values)
  {
    hide PairDistance, Sort, Sorted, MeanDifference;
    if values == [] {
      return None;
    }
    var sum := 0;
    for i := 0 to |values|
      invariant sum == Sum(values[..i])
    {
      assert values[..i + 1] == values[..i] + [values[i]];
      SumAppend(values[..i], values[i]);
      sum := sum + values[i];
    }
    assert values[..|values|] == values;
    if sum <= 0 {
      return None;
    }
    var sorted := Sort(NatLe(), values);
    SortSorts(NatLe(), values);
    var weighted := 0;
    for i := 0 to |sorted|
      invariant weighted == Weighted(sorted[..i])
    {
      assert sorted[..i + 1][..i] == sorted[..i];
      weighted := weighted + (i + 1) * sorted[i];
    }
    assert sorted[..|sorted|] == sorted;
    WeightedFormula(values, sorted);
    SameMultisetSameElements(sorted, values);
    r := Some(Formula(|sorted|, weighted, sum));
  }
}
