/** Total orders, sorting and deduplication: the reference meaning of the
    `sort`, `sort_unstable` and `dedup` calls the analysis makes on its vectors.
 */
module Orders {

  datatype Option<+T> = None | Some(value: T) {
    function GetOr(default: T): T {
      match this
      case Some(v) => v
      case None => default
    }
  }

  ghost predicate TotalPreorder<T(!new)>(le: (T, T) -> bool) {
    && (forall a, b :: le(a, b) || le(b, a))
    && (forall a, b, c :: le(a, b) && le(b, c) ==> le(a, c))
  }

  ghost predicate TotalOrder<T(!new)>(le: (T, T) -> bool) {
    && TotalPreorder(le)
    && (forall a, b :: le(a, b) && le(b, a) ==> a == b)
  }

  ghost predicate Sorted<T(!new)>(le: (T, T) -> bool, s: seq<T>) {
    forall i, j | 0 <= i < j < |s| :: le(s[i], s[j])
  }

  ghost predicate StrictlySorted<T(!new)>(le: (T, T) -> bool, s: seq<T>) {
    forall i, j | 0 <= i < j < |s| :: le(s[i], s[j]) && s[i] != s[j]
  }

  ghost predicate NoDuplicates<T>(s: seq<T>) {
    forall i, j | 0 <= i < j < |s| :: s[i] != s[j]
  }

  function Insert<T(!new)>(le: (T, T) -> bool, x: T, s: seq<T>): (r: seq<T>)
    ensures multiset(r) == multiset([x] + s)
    ensures |r| == |s| + 1
    ensures forall i | 0 <= i < |r| :: r[i] == x || r[i] in s
  {
    if s == [] then [x]
    else if le(x, s[0]) then [x] + s
    else
      assert s == [s[0]] + s[1..];
      [s[0]] + Insert(le, x, s[1..])
  }

  /** Stable insertion sort: equal keys keep their order. */
  function Sort<T(!new)>(le: (T, T) -> bool, s: seq<T>): (r: seq<T>)
    ensures multiset(r) == multiset(s)
    ensures |r| == |s|
  {
    if s == [] then []
    else
      assert s == [s[0]] + s[1..];
      Insert(le, s[0], Sort(le, s[1..]))
  }

  lemma {:induction false} InsertSorted<T(!new)>(le: (T, T) -> bool, x: T, s: seq<T>)
    requires TotalPreorder(le) && Sorted(le, s)
    ensures Sorted(le, Insert(le, x, s))
  {
    if s != [] && !le(x, s[0]) {
      InsertSorted(le, x, s[1..]);
    }
  }

  lemma {:induction false} SortSorts<T(!new)>(le: (T, T) -> bool, s: seq<T>)
    requires TotalPreorder(le)
    ensures Sorted(le, Sort(le, s))
  {
    if s != [] {
      SortSorts(le, s[1..]);
      InsertSorted(le, s[0], Sort(le, s[1..]));
    }
  }

  lemma SameMultisetSameElements<T>(a: seq<T>, b: seq<T>)
    requires multiset(a) == multiset(b)
    ensures |a| == |b|
    ensures forall x :: x in a <==> x in b
  {
    assert |multiset(a)| == |multiset(b)|;
    forall x
      ensures x in a <==> x in b
    {
      assert x in multiset(a) <==> x in multiset(b);
    }
  }

  lemma {:induction false} NoDuplicatesCounts<T>(s: seq<T>)
    ensures NoDuplicates(s) <==> forall x :: multiset(s)[x] <= 1
  {
    if s != [] {
      assert s == [s[0]] + s[1..];
      NoDuplicatesCounts(s[1..]);
      if NoDuplicates(s) {
        assert s[0] !in s[1..];
      } else if NoDuplicates(s[1..]) {
        assert s[0] in s[1..];
        assert multiset(s)[s[0]] == 1 + multiset(s[1..])[s[0]];
      } else {
        var x :| multiset(s[1..])[x] > 1;
        assert multiset(s)[x] > 1;
      }
    }
  }

  /** A permutation of a list without duplicates has none either. */
  lemma PermutationNoDuplicates<T>(a: seq<T>, b: seq<T>)
    requires multiset(a) == multiset(b) && NoDuplicates(a)
    ensures NoDuplicates(b)
  {
    NoDuplicatesCounts(a);
    NoDuplicatesCounts(b);
  }

  lemma TailMultiset<T>(s: seq<T>)
    requires s != []
    ensures multiset(s[1..]) == multiset(s) - multiset{s[0]}
    ensures s == [s[0]] + s[1..]
  {
    assert s == [s[0]] + s[1..];
  }

  /** A sorted arrangement of a multiset is unique, so every algorithm and every
      starting order give the same result. */
  lemma {:induction false} SortedUnique<T(!new)>(le: (T, T) -> bool, a: seq<T>, b: seq<T>)
    requires TotalOrder(le) && Sorted(le, a) && Sorted(le, b)
    requires multiset(a) == multiset(b)
    ensures a == b
  {
    SameMultisetSameElements(a, b);
    if a != [] {
      assert a[0] in b && b[0] in a;
      HeadIsLeast(le, a, b[0]);
      HeadIsLeast(le, b, a[0]);
      assert a[0] == b[0];
      hide Sorted, TotalOrder;
      TailMultiset(a);
      TailMultiset(b);
      SortedUnique(le, a[1..], b[1..]);
    }
  }

  lemma HeadIsLeast<T(!new)>(le: (T, T) -> bool, s: seq<T>, x: T)
    requires TotalOrder(le) && Sorted(le, s) && x in s
    ensures le(s[0], x) && Sorted(le, s[1..])
  {
    var i :| 0 <= i < |s| && s[i] == x;
  }

  /** Drops every element equal to its predecessor. */
  function Dedup<T(!new,==)>(s: seq<T>): (r: seq<T>)
    ensures forall x :: x in r <==> x in s
    ensures s != [] ==> r != [] && r[0] == s[0]
  {
    if |s| <= 1 then s
    else if s[0] == s[1] then Dedup(s[1..])
    else
      assert s == [s[0]] + s[1..];
      [s[0]] + Dedup(s[1..])
  }

  lemma {:induction false} DedupStrict<T(!new)>(le: (T, T) -> bool, s: seq<T>)
    requires TotalOrder(le) && Sorted(le, s)
    ensures StrictlySorted(le, Dedup(s))
  {
    if |s| > 1 {
      DedupStrict(le, s[1..]);
      if s[0] != s[1] {
        forall j | 0 <= j < |Dedup(s[1..])|
          ensures le(s[0], Dedup(s[1..])[j]) && s[0] != Dedup(s[1..])[j]
        {
          assert Dedup(s[1..])[j] in s[1..];
          assert le(s[1], Dedup(s[1..])[j]);
        }
      }
    }
  }

  lemma {:induction false} DedupOfStrict<T(!new)>(s: seq<T>)
    requires NoDuplicates(s)
    ensures Dedup(s) == s
  {
    if |s| > 1 {
      DedupOfStrict(s[1..]);
    }
  }

  function SortDedup<T(!new,==)>(le: (T, T) -> bool, s: seq<T>): (r: seq<T>)
    ensures forall x :: x in r <==> x in s
  {
    SameMultisetSameElements(Sort(le, s), s);
    Dedup(Sort(le, s))
  }

  lemma SortDedupStrict<T(!new)>(le: (T, T) -> bool, s: seq<T>)
    requires TotalOrder(le)
    ensures StrictlySorted(le, SortDedup(le, s))
  {
    SortSorts(le, s);
    DedupStrict(le, Sort(le, s));
  }

  lemma SomeElement<T>(s: seq<T>) returns (x: T)
    requires s != []
    ensures x in s
  {
    x := s[0];
  }

  /** A strictly sorted listing of a set is unique. */
  lemma {:induction false} StrictlySortedUnique<T(!new)>(le: (T, T) -> bool, a: seq<T>, b: seq<T>)
    requires TotalOrder(le) && StrictlySorted(le, a) && StrictlySorted(le, b)
    requires forall x :: x in a <==> x in b
    ensures a == b
  {
    if a == [] {
      if b != [] {
        var x := SomeElement(b);
      }
    } else {
      assert a[0] in b && b != [] && b[0] in a;
      assert le(a[0], b[0]) && le(b[0], a[0]);
      forall x
        ensures x in a[1..] <==> x in b[1..]
      {
        assert x in a <==> x == a[0] || x in a[1..];
        assert x in b <==> x == b[0] || x in b[1..];
      }
      StrictlySortedUnique(le, a[1..], b[1..]);
    }
  }

  /** Sorting and deduplicating a strictly sorted list changes nothing. */
  lemma SortDedupFixed<T(!new)>(le: (T, T) -> bool, s: seq<T>)
    requires TotalOrder(le) && StrictlySorted(le, s)
    ensures SortDedup(le, s) == s
  {
    SortDedupStrict(le, s);
    StrictlySortedUnique(le, SortDedup(le, s), s);
  }

  // ----- sums -----

  ghost function SumBy<T>(f: T -> int, s: seq<T>): int {
    if s == [] then 0 else f(s[0]) + SumBy(f, s[1..])
  }

  lemma {:induction false} SumByConcat<T>(f: T -> int, a: seq<T>, b: seq<T>)
    ensures SumBy(f, a + b) == SumBy(f, a) + SumBy(f, b)
  {
    if a == [] {
      assert a + b == b;
    } else {
      assert (a + b)[1..] == a[1..] + b;
      SumByConcat(f, a[1..], b);
    }
  }

  lemma RemoveAt<T>(f: T -> int, s: seq<T>, j: nat)
    requires j < |s|
    ensures SumBy(f, s) == f(s[j]) + SumBy(f, s[..j] + s[j + 1..])
  {
    var head, tail := s[..j], s[j + 1..];
    assert s == head + ([s[j]] + tail);
    SumByHead(f, s[j], tail);
    hide SumBy;
    SumByConcat(f, head, [s[j]] + tail);
    SumByConcat(f, head, tail);
  }

  lemma SumByHead<T>(f: T -> int, x: T, tail: seq<T>)
    ensures SumBy(f, [x] + tail) == f(x) + SumBy(f, tail)
  {
    assert ([x] + tail)[1..] == tail;
  }

  lemma RemoveAtMultiset<T>(s: seq<T>, j: nat)
    requires j < |s|
    ensures multiset(s[..j] + s[j + 1..]) == multiset(s) - multiset{s[j]}
  {
    assert s == s[..j] + ([s[j]] + s[j + 1..]);
  }

  /** The order of the terms does not matter. */
  lemma {:induction false} SumByPermutation<T>(f: T -> int, a: seq<T>, b: seq<T>)
    requires multiset(a) == multiset(b)
    ensures SumBy(f, a) == SumBy(f, b)
  {
    SameMultisetSameElements(a, b);
    if a != [] {
      assert a[0] in b;
      var j: nat :| j < |b| && b[j] == a[0];
      RemoveAt(f, b, j);
      RemoveAtMultiset(b, j);
      TailMultiset(a);
      SumByPermutation(f, a[1..], b[..j] + b[j + 1..]);
    }
  }

  // ----- lexicographic order -----

  predicate LexLe<T(==)>(le: (T, T) -> bool, a: seq<T>, b: seq<T>) {
    if a == [] then true
    else if b == [] then false
    else if a[0] != b[0] then le(a[0], b[0])
    else LexLe(le, a[1..], b[1..])
  }

  lemma {:induction false} LexTotalAt<T(!new)>(le: (T, T) -> bool, a: seq<T>, b: seq<T>)
    requires TotalOrder(le)
    ensures LexLe(le, a, b) || LexLe(le, b, a)
    ensures LexLe(le, a, b) && LexLe(le, b, a) ==> a == b
  {
    if a != [] && b != [] && a[0] == b[0] {
      LexTotalAt(le, a[1..], b[1..]);
      assert a == [a[0]] + a[1..] && b == [b[0]] + b[1..];
    }
  }

  lemma {:induction false} LexTransitiveAt<T(!new)>(le: (T, T) -> bool, a: seq<T>, b: seq<T>, c: seq<T>)
    requires TotalOrder(le)
    requires LexLe(le, a, b) && LexLe(le, b, c)
    ensures LexLe(le, a, c)
  {
    if a != [] && b != [] && c != [] && a[0] == b[0] == c[0] {
      LexTransitiveAt(le, a[1..], b[1..], c[1..]);
    }
  }

  lemma LexTotal<T(!new)>(le: (T, T) -> bool)
    requires TotalOrder(le)
    ensures TotalOrder((a: seq<T>, b: seq<T>) => LexLe(le, a, b))
  {
    var lex := (a: seq<T>, b: seq<T>) => LexLe(le, a, b);
    forall a, b
      ensures lex(a, b) || lex(b, a)
      ensures lex(a, b) && lex(b, a) ==> a == b
    {
      LexTotalAt(le, a, b);
    }
    forall a, b, c | lex(a, b) && lex(b, c)
      ensures lex(a, c)
    {
      LexTransitiveAt(le, a, b, c);
    }
  }

  // ----- the orders of the source's element types -----

  function NatLe(): ((nat, nat) -> bool) { (a: nat, b: nat) => a <= b }

  function CharLe(): ((char, char) -> bool) { (a: char, b: char) => a <= b }

  /** The order of `Arc<str>`: code point by code point. */
  function StrLe(): ((string, string) -> bool) { (a: string, b: string) => LexLe(CharLe(), a, b) }

  lemma StrTotal()
    ensures TotalOrder(StrLe())
  {
    LexTotal(CharLe());
    var lex := (a: string, b: string) => LexLe(CharLe(), a, b);
    assert forall a, b :: StrLe()(a, b) == lex(a, b);
  }

  function IntLe(): ((int, int) -> bool) { (a: int, b: int) => a <= b }

  /** The order `#[derive(Ord)]` gives two fields: the first one decides, ties go
      to the second. */
  function PairLe<A(==), B>(first: (A, A) -> bool, second: (B, B) -> bool): (((A, B), (A, B)) -> bool) {
    (p: (A, B), q: (A, B)) => if p.0 != q.0 then first(p.0, q.0) else second(p.1, q.1)
  }

  lemma PairTotal<A(!new), B(!new)>(first: (A, A) -> bool, second: (B, B) -> bool)
    requires TotalOrder(first) && TotalOrder(second)
    ensures TotalOrder(PairLe(first, second))
  {
    var le := PairLe(first, second);
    forall p: (A, B), q: (A, B)
      ensures le(p, q) || le(q, p)
      ensures le(p, q) && le(q, p) ==> p == q
    {
      assert first(p.0, q.0) || first(q.0, p.0);
      assert second(p.1, q.1) || second(q.1, p.1);
    }
    forall p: (A, B), q: (A, B), r: (A, B) | le(p, q) && le(q, r)
      ensures le(p, r)
    {
      assert p.0 == q.0 || first(p.0, q.0);
      assert q.0 == r.0 || first(q.0, r.0);
    }
  }

  /** Comparing by a key. */
  function ByKey<T, K>(le: (K, K) -> bool, key: T -> K): ((T, T) -> bool) {
    (a: T, b: T) => le(key(a), key(b))
  }

  lemma ByKeyPreorder<T(!new), K(!new)>(le: (K, K) -> bool, key: T -> K)
    requires TotalPreorder(le)
    ensures TotalPreorder(ByKey(le, key))
  {}

  lemma ByKeyTotal<T(!new), K(!new)>(le: (K, K) -> bool, key: T -> K)
    requires TotalOrder(le) && forall a, b :: key(a) == key(b) ==> a == b
    ensures TotalOrder(ByKey(le, key))
  {}

  /** A list sorted by a key whose keys are all different is unique. */
  lemma {:induction false} DistinctKeysUnique<T(!new), K(!new)>(le: (K, K) -> bool, key: T -> K, a: seq<T>, b: seq<T>)
    requires TotalOrder(le) && StrictKeys(le, key, a) && StrictKeys(le, key, b)
    requires forall x :: x in a <==> x in b
    ensures a == b
  {
    if a == [] {
      if b != [] {
        var x := SomeElement(b);
      }
    } else {
      assert a[0] in b && b != [] && b[0] in a;
      assert le(key(a[0]), key(b[0])) && le(key(b[0]), key(a[0]));
      assert a[0] == b[0];
      forall x
        ensures x in a[1..] <==> x in b[1..]
      {
        assert x in a <==> x == a[0] || x in a[1..];
        assert x in b <==> x == b[0] || x in b[1..];
      }
      DistinctKeysUnique(le, key, a[1..], b[1..]);
    }
  }

  ghost predicate StrictKeys<T(!new), K(!new)>(le: (K, K) -> bool, key: T -> K, s: seq<T>) {
    forall i, j | 0 <= i < j < |s| :: le(key(s[i]), key(s[j])) && key(s[i]) != key(s[j])
  }
}
