/** The evidence bundle of one candidate and its normal form. */
module Bundle {
  import opened Orders
  import opened Events
  import opened Spelling
  import opened Normalize

  // ----- relation verifications -----

  datatype Relation = ControllerContinuity | AuthorizedReissue | VerifiedMigration | OfficialCollection

  datatype Verification = Verification(
    seed: nat,
    controllerContinuity: bool,
    authorizedReissue: bool,
    verifiedMigration: bool,
    officialCollection: bool,
    complete: bool,
    evidenceKeys: seq<string>,
    failures: seq<string>)
  {
    predicate Holds(r: Relation) {
      match r
      case ControllerContinuity => controllerContinuity
      case AuthorizedReissue => authorizedReissue
      case VerifiedMigration => verifiedMigration
      case OfficialCollection => officialCollection
    }
  }

  function Seed(v: Verification): nat { v.seed }

  ghost predicate HasSeed(all: seq<Verification>, seed: nat) {
    exists w | w in all :: w.seed == seed
  }

  ghost predicate SomeHolds(all: seq<Verification>, seed: nat, r: Relation) {
    exists w | w in all :: w.seed == seed && w.Holds(r)
  }

  ghost predicate AllComplete(all: seq<Verification>, seed: nat) {
    forall w | w in all :: w.seed == seed ==> w.complete
  }

  ghost predicate SomeKey(all: seq<Verification>, seed: nat, k: string) {
    exists w | w in all :: w.seed == seed && k in w.evidenceKeys
  }

  ghost predicate SomeFailure(all: seq<Verification>, seed: nat, f: string) {
    exists w | w in all :: w.seed == seed && f in w.failures
  }

  /** `v` says of its seed what the verifications of that seed say together: a relation
      holds if one of them found it, the whole is complete if each of them is. */
  ghost predicate Merges(v: Verification, all: seq<Verification>) {
    && HasSeed(all, v.seed)
    && (forall r: Relation :: v.Holds(r) <==> SomeHolds(all, v.seed, r))
    && (v.complete <==> AllComplete(all, v.seed))
    && StrictlySorted(StrLe(), v.evidenceKeys)
    && (forall k :: k in v.evidenceKeys <==> SomeKey(all, v.seed, k))
    && StrictlySorted(StrLe(), v.failures)
    && (forall f :: f in v.failures <==> SomeFailure(all, v.seed, f))
  }

  /** One verification per seed, in the order of the seeds. */
  ghost predicate IsMerge(merged: seq<Verification>, all: seq<Verification>) {
    && StrictKeys(NatLe(), Seed, merged)
    && (forall n :: HasSeed(merged, n) <==> HasSeed(all, n))
    && (forall v | v in merged :: Merges(v, all))
  }

  /** What one more verification adds. */
  lemma OneMore(all: seq<Verification>, b: Verification, seed: nat)
    ensures HasSeed(all + [b], seed) <==> HasSeed(all, seed) || b.seed == seed
    ensures AllComplete(all + [b], seed) <==> AllComplete(all, seed) && (b.seed == seed ==> b.complete)
    ensures forall r :: SomeHolds(all + [b], seed, r) <==> SomeHolds(all, seed, r) || (b.seed == seed && b.Holds(r))
    ensures forall k ::
              SomeKey(all + [b], seed, k) <==> SomeKey(all, seed, k) || (b.seed == seed && k in b.evidenceKeys)
    ensures forall f ::
              SomeFailure(all + [b], seed, f) <==> SomeFailure(all, seed, f) || (b.seed == seed && f in b.failures)
  {
    assert forall w :: w in all + [b] <==> w in all || w == b;
  }

  lemma Unheard(all: seq<Verification>, seed: nat)
    requires !HasSeed(all, seed)
    ensures AllComplete(all, seed)
    ensures forall r :: !SomeHolds(all, seed, r)
    ensures forall k :: !SomeKey(all, seed, k) && !SomeFailure(all, seed, k)
  {}

  /** Only which verifications there are matters. */
  lemma SameHeard(a: seq<Verification>, b: seq<Verification>, seed: nat)
    requires forall w :: w in a <==> w in b
    ensures HasSeed(a, seed) <==> HasSeed(b, seed)
    ensures AllComplete(a, seed) <==> AllComplete(b, seed)
    ensures forall r :: SomeHolds(a, seed, r) <==> SomeHolds(b, seed, r)
    ensures forall k :: SomeKey(a, seed, k) <==> SomeKey(b, seed, k)
    ensures forall f :: SomeFailure(a, seed, f) <==> SomeFailure(b, seed, f)
  {}

  function Tidy(v: Verification): Verification {
    v.(evidenceKeys := SortDedup(StrLe(), v.evidenceKeys), failures := SortDedup(StrLe(), v.failures))
  }

  /** What the loop does to two neighbours of one seed. */
  function Join(a: Verification, b: Verification): Verification {
    Verification(a.seed,
                 a.controllerContinuity || b.controllerContinuity,
                 a.authorizedReissue || b.authorizedReissue,
                 a.verifiedMigration || b.verifiedMigration,
                 a.officialCollection || b.officialCollection,
                 a.complete && b.complete,
                 SortDedup(StrLe(), a.evidenceKeys + b.evidenceKeys),
                 SortDedup(StrLe(), a.failures + b.failures))
  }

  /** Sorting and deduplicating collects the members in strict order. */
  lemma Collected(s: seq<string>)
    ensures StrictlySorted(StrLe(), SortDedup(StrLe(), s))
    ensures forall k :: k in SortDedup(StrLe(), s) <==> k in s
  {
    StrTotal();
    SortDedupStrict(StrLe(), s);
  }

  lemma JoinMerges(a: Verification, all: seq<Verification>, b: Verification)
    requires Merges(a, all) && a.seed == b.seed
    ensures Merges(Join(a, b), all + [b])
  {
    hide HasSeed, SomeHolds, AllComplete, SomeKey, SomeFailure, SortDedup, StrictlySorted, StrLe;
    OneMore(all, b, a.seed);
    Collected(a.evidenceKeys + b.evidenceKeys);
    Collected(a.failures + b.failures);
  }

  /** Verifications of other seeds do not matter. */
  lemma MergesWithOther(v: Verification, all: seq<Verification>, b: Verification)
    requires Merges(v, all) && b.seed != v.seed
    ensures Merges(v, all + [b])
  {
    OneMore(all, b, v.seed);
  }

  lemma MergesNew(b: Verification, all: seq<Verification>)
    requires !HasSeed(all, b.seed)
    requires StrictlySorted(StrLe(), b.evidenceKeys) && StrictlySorted(StrLe(), b.failures)
    ensures Merges(b, all + [b])
  {
    hide HasSeed, SomeHolds, AllComplete, SomeKey, SomeFailure, StrictlySorted, StrLe;
    OneMore(all, b, b.seed);
    Unheard(all, b.seed);
  }

  /** The merged list is determined by what was said, not by who said it first. */
  lemma MergesUnique(u: Verification, v: Verification, a: seq<Verification>, b: seq<Verification>)
    requires Merges(u, a) && Merges(v, b) && u.seed == v.seed && forall w :: w in a <==> w in b
    ensures u == v
  {
    hide HasSeed, SomeHolds, AllComplete, SomeKey, SomeFailure;
    SameHeard(a, b, u.seed);
    StrTotal();
    StrictlySortedUnique(StrLe(), u.evidenceKeys, v.evidenceKeys);
    StrictlySortedUnique(StrLe(), u.failures, v.failures);
    assert u.Holds(ControllerContinuity) <==> v.Holds(ControllerContinuity);
    assert u.Holds(AuthorizedReissue) <==> v.Holds(AuthorizedReissue);
    assert u.Holds(VerifiedMigration) <==> v.Holds(VerifiedMigration);
    assert u.Holds(OfficialCollection) <==> v.Holds(OfficialCollection);
  }

  lemma IsMergeUnique(m: seq<Verification>, n: seq<Verification>, a: seq<Verification>, b: seq<Verification>)
    requires IsMerge(m, a) && IsMerge(n, b) && forall w :: w in a <==> w in b
    ensures m == n
  {
    hide Merges, SomeHolds, AllComplete, SomeKey, SomeFailure;
    forall v
      ensures v in m <==> v in n
    {
      SameHeard(a, b, v.seed);
      if v in m {
        assert HasSeed(m, v.seed) && HasSeed(n, v.seed);
        var u :| u in n && u.seed == v.seed;
        MergesUnique(v, u, a, b);
      } else if v in n {
        assert HasSeed(n, v.seed) && HasSeed(m, v.seed);
        var u :| u in m && u.seed == v.seed;
        MergesUnique(u, v, a, b);
      }
    }
    DistinctKeysUnique(NatLe(), Seed, m, n);
  }

  /** A merged list is its own merge. */
  lemma IsMergeFixed(m: seq<Verification>, all: seq<Verification>)
    requires IsMerge(m, all)
    ensures IsMerge(m, m)
  {
    forall v | v in m
      ensures Merges(v, m)
    {
      forall w | w in m && w.seed == v.seed
        ensures w == v
      {
        SeedOnce(m, v, w);
      }
      assert Merges(v, all);
    }
  }

  lemma SeedOnce(m: seq<Verification>, v: Verification, w: Verification)
    requires StrictKeys(NatLe(), Seed, m) && v in m && w in m && v.seed == w.seed
    ensures v == w
  {
    var i :| 0 <= i < |m| && m[i] == v;
    var j :| 0 <= j < |m| && m[j] == w;
    assert Seed(m[i]) == Seed(m[j]);
  }

  /** Tidying changes nothing that is heard. */
  lemma TidyHeard(all: seq<Verification>, seed: nat)
    ensures HasSeed(Map(Tidy, all), seed) <==> HasSeed(all, seed)
    ensures AllComplete(Map(Tidy, all), seed) <==> AllComplete(all, seed)
    ensures forall r :: SomeHolds(Map(Tidy, all), seed, r) <==> SomeHolds(all, seed, r)
    ensures forall k :: SomeKey(Map(Tidy, all), seed, k) <==> SomeKey(all, seed, k)
    ensures forall f :: SomeFailure(Map(Tidy, all), seed, f) <==> SomeFailure(all, seed, f)
  {
    hide SortDedup;
    var tidied := Map(Tidy, all);
    forall w | w in all
      ensures Tidy(w) in tidied && forall r: Relation :: Tidy(w).Holds(r) <==> w.Holds(r)
    {
      var i :| 0 <= i < |all| && all[i] == w;
      assert tidied[i] == Tidy(w);
    }
    forall t | t in tidied
      ensures exists w | w in all :: t == Tidy(w)
    {
      var i :| 0 <= i < |all| && tidied[i] == t;
      assert all[i] in all && t == Tidy(all[i]);
    }
  }

  lemma TidyMerge(merged: seq<Verification>, all: seq<Verification>)
    requires IsMerge(merged, Map(Tidy, all))
    ensures IsMerge(merged, all)
  {
    hide HasSeed, SomeHolds, AllComplete, SomeKey, SomeFailure, StrictlySorted, StrLe, StrictKeys;
    forall n
      ensures HasSeed(merged, n) <==> HasSeed(all, n)
    {
      TidyHeard(all, n);
    }
    forall v | v in merged
      ensures Merges(v, all)
    {
      TidyHeard(all, v.seed);
    }
  }

  // ----- the merging loop -----

  lemma PushKeeps(merged: seq<Verification>, all: seq<Verification>, b: Verification)
    requires IsMerge(merged, all) && !HasSeed(all, b.seed) && forall w | w in all :: w.seed <= b.seed
    requires StrictlySorted(StrLe(), b.evidenceKeys) && StrictlySorted(StrLe(), b.failures)
    ensures IsMerge(merged + [b], all + [b])
  {
    hide SomeHolds, AllComplete, SomeKey, SomeFailure, StrictlySorted, StrLe, Merges;
    MergesNew(b, all);
    forall v | v in merged
      ensures v.seed < b.seed && Merges(v, all + [b])
    {
      assert HasSeed(merged, v.seed);
      MergesWithOther(v, all, b);
    }
    forall n
      ensures HasSeed(merged + [b], n) <==> HasSeed(all + [b], n)
    {
      OneMore(all, b, n);
      OneMore(merged, b, n);
    }
  }

  lemma JoinKeeps(merged: seq<Verification>, all: seq<Verification>, b: Verification)
    requires IsMerge(merged, all) && merged != [] && merged[|merged| - 1].seed == b.seed
    ensures var last := merged[|merged| - 1];
            IsMerge(merged[|merged| - 1 := Join(last, b)], all + [b])
  {
    hide SomeHolds, AllComplete, SomeKey, SomeFailure, StrictlySorted, StrLe, Merges, SortDedup;
    var k := |merged| - 1;
    var last := merged[k];
    var joined := merged[k := Join(last, b)];
    assert last in merged;
    JoinMerges(last, all, b);
    forall v | v in joined
      ensures Merges(v, all + [b])
    {
      var i :| 0 <= i < |joined| && joined[i] == v;
      if i < k {
        assert merged[i] in merged && Seed(merged[i]) != Seed(merged[k]);
        MergesWithOther(v, all, b);
      }
    }
    forall n
      ensures HasSeed(joined, n) <==> HasSeed(all + [b], n)
    {
      OneMore(all, b, n);
      SameSeeds(merged, joined, n);
    }
  }

  lemma SameSeeds(a: seq<Verification>, b: seq<Verification>, n: nat)
    requires |a| == |b| && forall i | 0 <= i < |a| :: a[i].seed == b[i].seed
    ensures HasSeed(a, n) <==> HasSeed(b, n)
  {
    if HasSeed(a, n) {
      var i :| 0 <= i < |a| && a[i].seed == n;
      assert b[i] in b;
    }
    if HasSeed(b, n) {
      var i :| 0 <= i < |b| && b[i].seed == n;
      assert a[i] in a;
    }
  }

  /** The last seed of a merge is the highest one heard. */
  lemma LastSeed(merged: seq<Verification>, all: seq<Verification>, seed: nat)
    requires IsMerge(merged, all) && forall w | w in all :: w.seed <= seed
    requires merged == [] || merged[|merged| - 1].seed != seed
    ensures !HasSeed(all, seed)
  {
    hide Merges;
    if merged != [] {
      var last := merged[|merged| - 1];
      assert last in merged && HasSeed(merged, last.seed);
      forall v | v in merged
        ensures v.seed < seed
      {
        var i :| 0 <= i < |merged| && merged[i] == v;
        assert Seed(merged[i]) <= Seed(last);
      }
    }
    assert !HasSeed(merged, seed);
  }

  function SortedBySeed(all: seq<Verification>): (r: seq<Verification>)
    ensures multiset(r) == multiset(all)
  {
    Sort(ByKey(NatLe(), Seed), all)
  }

  /** The prefix before `i` is merged; so is the prefix after one more turn. */
  lemma FoldKeeps(merged: seq<Verification>, all: seq<Verification>, sorted: seq<Verification>, i: nat)
    requires i < |sorted| && sorted == SortedBySeed(Map(Tidy, all)) && IsMerge(merged, sorted[..i])
    ensures merged != [] && merged[|merged| - 1].seed == sorted[i].seed ==>
              IsMerge(merged[|merged| - 1 := Join(merged[|merged| - 1], sorted[i])], sorted[..i + 1])
    ensures merged == [] || merged[|merged| - 1].seed != sorted[i].seed ==>
              IsMerge(merged + [sorted[i]], sorted[..i + 1])
  {
    hide IsMerge, StrictlySorted, StrLe, Sort;
    ByKeyPreorder(NatLe(), Seed);
    SortSorts(ByKey(NatLe(), Seed), Map(Tidy, all));
    SameMultisetSameElements(sorted, Map(Tidy, all));
    assert sorted[i] in sorted;
    TidyStrict(all, sorted[i]);
    SeedsBelow(sorted, i);
    assert sorted[..i + 1] == sorted[..i] + [sorted[i]];
    if merged != [] && merged[|merged| - 1].seed == sorted[i].seed {
      JoinKeeps(merged, sorted[..i], sorted[i]);
    } else {
      LastSeed(merged, sorted[..i], sorted[i].seed);
      PushKeeps(merged, sorted[..i], sorted[i]);
    }
  }

  lemma NothingMerged()
    ensures IsMerge([], [])
  {
    hide Merges;
  }

  /** Sorts the verifications by seed and folds neighbours of one seed together. */
  method MergeVerifications(all: seq<Verification>) returns (merged: seq<Verification>)
    ensures IsMerge(merged, all)
  {
    hide *;
    var sorted := SortedBySeed(Map(Tidy, all));
    merged := [];
    NothingMerged();
    assert sorted[..0] == [];
    for i := 0 to |sorted|
      invariant IsMerge(merged, sorted[..i])
    {
      FoldKeeps(merged, all, sorted, i);
      var last := |merged| - 1;
      if merged != [] && merged[last].seed == sorted[i].seed {
        merged := merged[last := Join(merged[last], sorted[i])];
      } else {
        merged := merged + [sorted[i]];
      }
    }
    assert sorted[..|sorted|] == sorted;
    SameMultisetSameElements(sorted, Map(Tidy, all));
    SameMerge(merged, sorted, Map(Tidy, all));
    TidyMerge(merged, all);
  }

  lemma SeedsBelow(sorted: seq<Verification>, i: nat)
    requires Sorted(ByKey(NatLe(), Seed), sorted) && i < |sorted|
    ensures forall w | w in sorted[..i] :: w.seed <= sorted[i].seed
  {
    forall w | w in sorted[..i]
      ensures w.seed <= sorted[i].seed
    {
      var j :| 0 <= j < i && sorted[j] == w;
      assert ByKey(NatLe(), Seed)(sorted[j], sorted[i]);
      assert NatLe()(Seed(sorted[j]), Seed(sorted[i]));
    }
  }

  lemma TidyStrict(all: seq<Verification>, v: Verification)
    requires v in Map(Tidy, all)
    ensures StrictlySorted(StrLe(), v.evidenceKeys) && StrictlySorted(StrLe(), v.failures)
  {
    var i :| 0 <= i < |all| && Map(Tidy, all)[i] == v;
    Collected(all[i].evidenceKeys);
    Collected(all[i].failures);
  }

  lemma SameMerge(merged: seq<Verification>, a: seq<Verification>, b: seq<Verification>)
    requires IsMerge(merged, a) && forall w :: w in a <==> w in b
    ensures IsMerge(merged, b)
  {
    hide HasSeed, SomeHolds, AllComplete, SomeKey, SomeFailure, StrictlySorted, StrLe, StrictKeys;
    forall n
      ensures HasSeed(merged, n) <==> HasSeed(b, n)
    {
      SameHeard(a, b, n);
    }
    forall v | v in merged
      ensures Merges(v, b)
    {
      SameHeard(a, b, v.seed);
    }
  }

  // ----- the other lists -----

  datatype EvidenceStatus = NotRequested | Requested | Complete | Empty | Truncated | Failed {
    function Rank(): nat {
      match this
      case NotRequested => 0
      case Requested => 1
      case Complete => 2
      case Empty => 3
      case Truncated => 4
      case Failed => 5
    }
  }

  datatype Observation = Observation(source: string, requestKey: string, observedAt: int, status: EvidenceStatus)

  function ObservationFields(o: Observation): (string, (string, (int, nat))) {
    (o.source, (o.requestKey, (o.observedAt, o.status.Rank())))
  }

  function ObservationLe(): ((Observation, Observation) -> bool) {
    ByKey(PairLe(StrLe(), PairLe(StrLe(), PairLe(IntLe(), NatLe()))), ObservationFields)
  }

  lemma ObservationTotal()
    ensures TotalOrder(ObservationLe())
  {
    StrTotal();
    PairTotal(IntLe(), NatLe());
    PairTotal(StrLe(), PairLe(IntLe(), NatLe()));
    PairTotal(StrLe(), PairLe(StrLe(), PairLe(IntLe(), NatLe())));
    ByKeyTotal(PairLe(StrLe(), PairLe(StrLe(), PairLe(IntLe(), NatLe()))), ObservationFields);
  }

  function HolderFields(h: (NftKey, string)): (nat, (string, (string, string))) {
    (ChainRank(h.0.chain), (h.0.contractAddress, (h.0.tokenId, h.1)))
  }

  function HolderLe(): (((NftKey, string), (NftKey, string)) -> bool) {
    ByKey(PairLe(NatLe(), PairLe(StrLe(), PairLe(StrLe(), StrLe()))), HolderFields)
  }

  lemma HolderTotal()
    ensures TotalOrder(HolderLe())
  {
    StrTotal();
    PairTotal(StrLe(), StrLe());
    PairTotal(StrLe(), PairLe(StrLe(), StrLe()));
    PairTotal(NatLe(), PairLe(StrLe(), PairLe(StrLe(), StrLe())));
    ByKeyTotal(PairLe(NatLe(), PairLe(StrLe(), PairLe(StrLe(), StrLe()))), HolderFields);
  }

  // ----- the bundle as a value -----

  datatype Evidence = Evidence(
    chain: ChainId,
    contract: string,
    events: seq<NormalizedEvent>,
    holders: seq<(NftKey, string)>,
    controllers: seq<string>,
    verifications: seq<Verification>,
    provenance: seq<Observation>,
    failures: seq<string>)

  function CanonicalOn(chain: ChainId): string -> string { (s: string) => Canonical(chain, s, false) }

  function Canonicalized(e: Evidence): Evidence {
    e.(contract := Canonical(e.chain, e.contract, false),
       events := Map(CanonicalEvent, e.events),
       holders := Map(CanonicalHolder, e.holders),
       controllers := Map(CanonicalOn(e.chain), e.controllers))
  }

  /** Two surviving events claim one place, so there is no normal form. */
  ghost predicate Clashes(e: Evidence) { Conflicting(Reconciled(Canonicalized(e).events)) }

  /** The normal form of the bundle. */
  ghost predicate IsNormalForm(after: Evidence, before: Evidence) {
    var c := Canonicalized(before);
    && after.chain == c.chain && after.contract == c.contract
    && after.events == NormalEvents(c.events)
    && after.holders == SortDedup(HolderLe(), c.holders)
    && after.controllers == SortDedup(StrLe(), c.controllers)
    && IsMerge(after.verifications, c.verifications)
    && after.provenance == SortDedup(ObservationLe(), c.provenance)
    && after.failures == SortDedup(StrLe(), c.failures)
  }

  lemma MapFixed<A>(f: A -> A, s: seq<A>)
    requires forall x | x in s :: f(x) == x
    ensures Map(f, s) == s
  {}

  /** Every value of an idempotent map is a fixed point of it. */
  lemma ImageFixed<A(!new)>(f: A -> A, s: seq<A>, t: seq<A>)
    requires (forall x :: f(f(x)) == f(x)) && forall x | x in t :: x in Map(f, s)
    ensures Map(f, t) == t
  {
    forall x | x in t
      ensures f(x) == x
    {
      var i :| 0 <= i < |s| && Map(f, s)[i] == x;
      assert f(f(s[i])) == f(s[i]);
    }
    MapFixed(f, t);
  }

  /** A normal form is spelled canonically already. */
  lemma NormalFormCanonical(n: Evidence, b: Evidence)
    requires IsNormalForm(n, b)
    ensures Canonicalized(n) == n
  {
    hide Canonical, IsMerge, KeepFirst, DropShadowed, Shadowed, SortDedup;
    CanonicalIdempotent(b.chain, b.contract, false);
    NormalMember(Canonicalized(b).events);
    forall e
      ensures CanonicalEvent(CanonicalEvent(e)) == CanonicalEvent(e)
    {
      CanonicalEventIdempotent(e);
    }
    ImageFixed(CanonicalEvent, b.events, n.events);
    forall h
      ensures CanonicalHolder(CanonicalHolder(h)) == CanonicalHolder(h)
    {
      CanonicalNftIdempotent(h.0);
      CanonicalIdempotent(h.0.chain, h.1, false);
    }
    ImageFixed(CanonicalHolder, b.holders, n.holders);
    forall s
      ensures CanonicalOn(b.chain)(CanonicalOn(b.chain)(s)) == CanonicalOn(b.chain)(s)
    {
      CanonicalIdempotent(b.chain, s, false);
    }
    ImageFixed(CanonicalOn(b.chain), b.controllers, n.controllers);
  }

  lemma SortDedupTwice<T(!new)>(le: (T, T) -> bool, s: seq<T>)
    requires TotalOrder(le)
    ensures SortDedup(le, SortDedup(le, s)) == SortDedup(le, s)
  {
    SortDedupStrict(le, s);
    SortDedupFixed(le, SortDedup(le, s));
  }

  /** Normalising a normal form cannot fail and is the normal form itself. */
  lemma NormalFormFixed(n: Evidence, b: Evidence)
    requires IsNormalForm(n, b) && !Clashes(b)
    ensures IsNormalForm(n, n) && !Clashes(n)
  {
    NormalFormCanonical(n, b);
    hide Canonicalized, NormalEvents, Reconciled, Conflicting, IsMerge, SortDedup;
    var c := Canonicalized(b);
    NormalEventsFixed(c.events);
    StrTotal();
    HolderTotal();
    ObservationTotal();
    SortDedupTwice(HolderLe(), c.holders);
    SortDedupTwice(StrLe(), c.controllers);
    SortDedupTwice(ObservationLe(), c.provenance);
    SortDedupTwice(StrLe(), c.failures);
    IsMergeFixed(n.verifications, c.verifications);
  }

  /** A bundle has one normal form. */
  lemma NormalFormUnique(m: Evidence, n: Evidence, b: Evidence)
    requires IsNormalForm(m, b) && IsNormalForm(n, b)
    ensures m == n
  {
    hide Canonicalized, NormalEvents, IsMerge, SortDedup;
    var c := Canonicalized(b);
    IsMergeUnique(m.verifications, n.verifications, c.verifications, c.verifications);
  }

  /** Normalising twice is normalising once. */
  lemma NormalizeIdempotent(b: Evidence, once: Evidence, twice: Evidence)
    requires !Clashes(b) && IsNormalForm(once, b) && IsNormalForm(twice, once)
    ensures twice == once && !Clashes(once)
  {
    NormalFormFixed(once, b);
    NormalFormUnique(twice, once, once);
  }

  // ----- what the normal form says, without naming how it is made -----

  /** Every element of one list has its like in the other, and the other way round. */
  ghost predicate Corresponds<A(!new)>(a: seq<A>, b: seq<A>, like: (A, A) -> bool) {
    && (forall x | x in a :: exists y :: y in b && like(x, y))
    && (forall y | y in b :: exists x :: x in a && like(x, y))
  }

  ghost predicate SameHolder(a: (NftKey, string), b: (NftKey, string)) {
    SameNft(a.0, b.0) && SameSpelling(a.0.chain, a.1, b.1)
  }

  ghost function SpelledAs(chain: ChainId): (string, string) -> bool {
    (a: string, b: string) => SameSpelling(chain, a, b)
  }

  ghost function SameHolders(): ((NftKey, string), (NftKey, string)) -> bool {
    (a: (NftKey, string), b: (NftKey, string)) => SameHolder(a, b)
  }

  /** The event is told by s: spelled differently at most and with another index, or as
      the sale of its movement. */
  ghost predicate IsToldBy(e: NormalizedEvent, s: NormalizedEvent) {
    exists x :: SameEvent(e, x) && (AreCopies(s, x) || (x.kind == Transfer && s.IsNftSale() && SameMovement(s, x)))
  }

  /** Everything is spelled canonically, nothing is made up and nothing is lost. */
  ghost predicate SaysTheSame(after: Evidence, before: Evidence) {
    && IsSpelled(before.chain, after.contract) && SameSpelling(before.chain, before.contract, after.contract)
    && (forall s | s in after.events :: IsSpelledEvent(s) && exists e :: e in before.events && SameEvent(e, s))
    && (forall e | e in before.events :: exists s :: s in after.events && IsToldBy(e, s))
    && (forall h | h in after.holders :: IsSpelledNft(h.0) && IsSpelled(h.0.chain, h.1))
    && Corresponds(before.holders, after.holders, SameHolders())
    && (forall c | c in after.controllers :: IsSpelled(before.chain, c))
    && Corresponds(before.controllers, after.controllers, SpelledAs(before.chain))
  }

  lemma InMap<A, B>(f: A -> B, s: seq<A>)
    ensures forall x | x in s :: f(x) in Map(f, s)
    ensures forall y | y in Map(f, s) :: exists x :: x in s && f(x) == y
  {
    forall x | x in s
      ensures f(x) in Map(f, s)
    {
      var i :| 0 <= i < |s| && s[i] == x;
      assert Map(f, s)[i] == f(x);
    }
    forall y | y in Map(f, s)
      ensures exists x :: x in s && f(x) == y
    {
      var i :| 0 <= i < |s| && Map(f, s)[i] == y;
      assert s[i] in s;
    }
  }

  lemma MapCorresponds<A(!new)>(f: A -> A, s: seq<A>, t: seq<A>, like: (A, A) -> bool)
    requires (forall x :: like(x, f(x))) && forall y :: y in t <==> y in Map(f, s)
    ensures Corresponds(s, t, like)
  {
    InMap(f, s);
  }

  lemma HolderSpelled(h: (NftKey, string))
    ensures var c := CanonicalHolder(h); IsSpelledNft(c.0) && IsSpelled(c.0.chain, c.1) && SameHolder(h, c)
  {
    hide Canonical, IsSpelled, SameSpelling, SameNft;
    assert CanonicalNft(h.0).chain == h.0.chain;
    NftSpelled(h.0);
    CanonicalIsSpelled(h.0.chain, h.1);
    CanonicalIsSame(h.0.chain, h.1);
  }

  lemma SurvivorIsSpelled(events: seq<NormalizedEvent>, s: NormalizedEvent)
    requires s in NormalEvents(Map(CanonicalEvent, events))
    ensures IsSpelledEvent(s) && exists e :: e in events && SameEvent(e, s)
  {
    var c := Map(CanonicalEvent, events);
    NormalMember(c);
    assert s in c;
    var i :| 0 <= i < |events| && c[i] == s;
    EventSpelled(events[i]);
    hide *;
    assert events[i] in events;
  }

  lemma EventIsTold(events: seq<NormalizedEvent>, e: NormalizedEvent)
    requires e in events
    ensures exists s :: s in NormalEvents(Map(CanonicalEvent, events)) && IsToldBy(e, s)
  {
    InMap(CanonicalEvent, events);
    hide NormalEvents, CanonicalEvent, SameEvent, AreCopies, SameMovement, Map;
    EventSpelled(e);
    EventRepresented(Map(CanonicalEvent, events), CanonicalEvent(e));
  }

  lemma EventsSayTheSame(n: Evidence, b: Evidence)
    requires IsNormalForm(n, b)
    ensures forall s | s in n.events :: IsSpelledEvent(s) && exists e :: e in b.events && SameEvent(e, s)
    ensures forall e | e in b.events :: exists s :: s in n.events && IsToldBy(e, s)
  {
    assert n.events == NormalEvents(Map(CanonicalEvent, b.events));
    hide *;
    forall s | s in n.events
      ensures IsSpelledEvent(s) && exists e :: e in b.events && SameEvent(e, s)
    {
      SurvivorIsSpelled(b.events, s);
    }
    forall e | e in b.events
      ensures exists s :: s in n.events && IsToldBy(e, s)
    {
      EventIsTold(b.events, e);
    }
  }

  lemma HoldersSayTheSame(n: Evidence, b: Evidence)
    requires IsNormalForm(n, b)
    ensures forall h | h in n.holders :: IsSpelledNft(h.0) && IsSpelled(h.0.chain, h.1)
    ensures Corresponds(b.holders, n.holders, SameHolders())
  {
    InMap(CanonicalHolder, b.holders);
    assert forall h :: h in n.holders <==> h in Map(CanonicalHolder, b.holders);
    hide IsNormalForm, Canonicalized, CanonicalHolder, SameHolder, IsSpelled, IsSpelledNft, Corresponds;
    forall h
      ensures SameHolders()(h, CanonicalHolder(h))
      ensures var c := CanonicalHolder(h); IsSpelledNft(c.0) && IsSpelled(c.0.chain, c.1)
    {
      HolderSpelled(h);
    }
    MapCorresponds(CanonicalHolder, b.holders, n.holders, SameHolders());
  }

  lemma ControllersSayTheSame(n: Evidence, b: Evidence)
    requires IsNormalForm(n, b)
    ensures IsSpelled(b.chain, n.contract) && SameSpelling(b.chain, b.contract, n.contract)
    ensures forall c | c in n.controllers :: IsSpelled(b.chain, c)
    ensures Corresponds(b.controllers, n.controllers, SpelledAs(b.chain))
  {
    var f := CanonicalOn(b.chain);
    InMap(f, b.controllers);
    assert forall c :: c in n.controllers <==> c in Map(f, b.controllers);
    assert n.contract == Canonical(b.chain, b.contract, false);
    assert forall s :: f(s) == Canonical(b.chain, s, false);
    CanonicalIsSpelled(b.chain, b.contract);
    CanonicalIsSame(b.chain, b.contract);
    hide IsNormalForm, Canonicalized, Canonical, CanonicalOn, SameSpelling, IsSpelled, Corresponds;
    forall s
      ensures SpelledAs(b.chain)(s, f(s)) && IsSpelled(b.chain, f(s))
    {
      CanonicalIsSpelled(b.chain, s);
      CanonicalIsSame(b.chain, s);
    }
    MapCorresponds(f, b.controllers, n.controllers, SpelledAs(b.chain));
  }

  /** The normal form is spelled canonically throughout and says what the bundle says. */
  lemma NormalFormSaysTheSame(n: Evidence, b: Evidence)
    requires IsNormalForm(n, b)
    ensures SaysTheSame(n, b)
  {
    EventsSayTheSame(n, b);
    HoldersSayTheSame(n, b);
    ControllersSayTheSame(n, b);
  }

  /** The bundles differ at most in spelling. */
  ghost predicate SameButSpelling(a: Evidence, b: Evidence) {
    && a.chain == b.chain && SameSpelling(a.chain, a.contract, b.contract)
    && |a.events| == |b.events| && (forall i | 0 <= i < |a.events| :: SameEvent(a.events[i], b.events[i]))
    && |a.holders| == |b.holders| && (forall i | 0 <= i < |a.holders| :: SameHolder(a.holders[i], b.holders[i]))
    && |a.controllers| == |b.controllers|
    && (forall i | 0 <= i < |a.controllers| :: SameSpelling(a.chain, a.controllers[i], b.controllers[i]))
    && a.verifications == b.verifications && a.provenance == b.provenance && a.failures == b.failures
  }

  lemma SameSpellingsAlike(a: Evidence, b: Evidence)
    requires SameButSpelling(a, b)
    ensures Canonicalized(a) == Canonicalized(b)
  {
    hide Canonical, SameSpelling, SameEvent, SameNft, CanonicalEvent, CanonicalNft;
    SpelledAlike(a.chain, a.contract, b.contract);
    forall i | 0 <= i < |a.events|
      ensures CanonicalEvent(a.events[i]) == CanonicalEvent(b.events[i])
    {
      SameEventsAlike(a.events[i], b.events[i]);
    }
    forall i | 0 <= i < |a.holders|
      ensures CanonicalHolder(a.holders[i]) == CanonicalHolder(b.holders[i])
    {
      SameHoldersAlike(a.holders[i], b.holders[i]);
    }
    forall i | 0 <= i < |a.controllers|
      ensures CanonicalOn(a.chain)(a.controllers[i]) == CanonicalOn(a.chain)(b.controllers[i])
    {
      SpelledAlike(a.chain, a.controllers[i], b.controllers[i]);
    }
    assert Map(CanonicalEvent, a.events) == Map(CanonicalEvent, b.events);
    assert Map(CanonicalHolder, a.holders) == Map(CanonicalHolder, b.holders);
    assert Map(CanonicalOn(a.chain), a.controllers) == Map(CanonicalOn(a.chain), b.controllers);
  }

  lemma SameHoldersAlike(a: (NftKey, string), b: (NftKey, string))
    requires SameHolder(a, b)
    ensures CanonicalHolder(a) == CanonicalHolder(b)
  {
    SameNftsAlike(a.0, b.0);
    SpelledAlike(a.0.chain, a.1, b.1);
  }

  /** Spelling does not matter: bundles that differ only in it have the same normal form,
      or neither has one. */
  lemma SpellingDoesNotMatter(a: Evidence, b: Evidence, n: Evidence)
    requires SameButSpelling(a, b)
    ensures (Clashes(a) <==> Clashes(b)) && (IsNormalForm(n, a) <==> IsNormalForm(n, b))
  {
    SameSpellingsAlike(a, b);
    hide Canonicalized, NormalEvents, IsMerge, SortDedup, Conflicting, Reconciled;
  }

  // ----- the bundle as the routine rewrites it -----

  /** `dedup_by` on the event identity. */
  function DedupByIdentity(events: seq<NormalizedEvent>): seq<NormalizedEvent>
    decreases |events|
  {
    if |events| <= 1 then events
    else if Id(events[0]) == Id(events[1]) then DedupByIdentity([events[0]] + events[2..])
    else [events[0]] + DedupByIdentity(events[1..])
  }

  lemma {:induction false} DedupByIdentityFixed(events: seq<NormalizedEvent>)
    requires forall i, j | 0 <= i && j == i + 1 && j < |events| :: Id(events[i]) != Id(events[j])
    ensures DedupByIdentity(events) == events
  {
    if |events| > 1 {
      assert Id(events[0]) != Id(events[1]);
      var tail := events[1..];
      forall i, j | 0 <= i && j == i + 1 && j < |tail|
        ensures Id(tail[i]) != Id(tail[j])
      {
        assert tail[i] == events[i + 1] && tail[j] == events[i + 2];
      }
      DedupByIdentityFixed(tail);
    }
  }

  /** In a sorted list neighbours with different identities are all there is to look at. */
  lemma NeighboursDecide(events: seq<NormalizedEvent>)
    requires Sorted(ByKey(IdentityLe(), Id), events)
    requires forall i, j | 0 <= i && j == i + 1 && j < |events| :: Id(events[i]) != Id(events[j])
    ensures !Conflicting(events)
  {
    IdentityTotal();
    hide IdentityLe;
    var le := IdentityLe();
    forall i, j | 0 <= i < j < |events|
      ensures Id(events[i]) != Id(events[j])
    {
      var k := i + 1;
      assert Id(events[i]) != Id(events[k]);
      assert ByKey(le, Id)(events[i], events[k]);
      if k < j {
        assert ByKey(le, Id)(events[k], events[j]);
      }
    }
    NoConflict(events);
  }

  lemma NoConflict(events: seq<NormalizedEvent>)
    requires forall i, j | 0 <= i < j < |events| :: Id(events[i]) != Id(events[j])
    ensures !Conflicting(events)
  {
    forall x, y | x in events && y in events && Id(x) == Id(y)
      ensures x == y
    {
      var i :| 0 <= i < |events| && events[i] == x;
      var j :| 0 <= j < |events| && events[j] == y;
    }
  }

  /** Looks for two neighbours with one identity. */
  method FindConflict(events: seq<NormalizedEvent>) returns (conflict: Option<Identity>)
    requires Sorted(ByKey(IdentityLe(), Id), events) && NoDuplicates(events)
    ensures conflict.Some? <==> Conflicting(events)
    ensures conflict.Some? ==> exists i, j :: 0 <= i < j < |events| && Id(events[i]) == Id(events[j]) == conflict.value
    ensures conflict.None? ==> DedupByIdentity(events) == events
  {
    hide Conflicting, DedupByIdentity;
    for i := 0 to |events|
      invariant forall k, l | 0 <= k && l == k + 1 && l < i :: Id(events[k]) != Id(events[l])
    {
      if i > 0 && Id(events[i - 1]) == Id(events[i]) && events[i - 1] != events[i] {
        ConflictAt(events, i - 1, i);
        return Some(Id(events[i]));
      }
    }
    NeighboursDecide(events);
    DedupByIdentityFixed(events);
    conflict := None;
  }

  lemma ConflictAt(events: seq<NormalizedEvent>, i: nat, j: nat)
    requires i < |events| && j < |events| && events[i] != events[j] && Id(events[i]) == Id(events[j])
    ensures Conflicting(events)
  {
    assert events[i] in events && events[j] in events;
  }

  class EvidenceBundle {
    const chain: ChainId
    var contract: string
    var events: seq<NormalizedEvent>
    var holders: seq<(NftKey, string)>
    var controllers: seq<string>
    var verifications: seq<Verification>
    var provenance: seq<Observation>
    var failures: seq<string>

    constructor (e: Evidence)
      ensures View() == e
    {
      chain, contract, events, holders, controllers := e.chain, e.contract, e.events, e.holders, e.controllers;
      verifications, provenance, failures := e.verifications, e.provenance, e.failures;
    }

    function View(): Evidence
      reads this
    {
      Evidence(chain, contract, events, holders, controllers, verifications, provenance, failures)
    }

    /** Rewrites every address, transaction id and token id. */
    method CanonicalizeIdentities()
      modifies this
      ensures View() == Canonicalized(old(View()))
    {
      contract := Canonical(chain, contract, false);
      events := Map(CanonicalEvent, events);
      holders := Map(CanonicalHolder, holders);
      controllers := Map(CanonicalOn(chain), controllers);
    }

    /** Fails exactly when two surviving events claim one place in a transaction; the
        bundle is then left canonical with its surviving events sorted. */
    method Normalize() returns (conflict: Option<Identity>)
      modifies this
      ensures conflict.Some? <==> Clashes(old(View()))
      ensures conflict.None? ==> IsNormalForm(View(), old(View()))
      ensures conflict.Some? ==>
                View() == Canonicalized(old(View())).(events := NormalEvents(Canonicalized(old(View())).events))
      ensures conflict.Some? ==>
                exists i, j :: 0 <= i < j < |events| && Id(events[i]) == Id(events[j]) == conflict.value
    {
      hide Canonicalized, Reconciled, Conflicting, IsMerge, SortDedup, Sort;
      CanonicalizeIdentities();
      ghost var c := View();
      var reconciled := ReconcileDuplicateEvents(events);
      NormalMember(events);
      events := Arranged(reconciled);
      conflict := FindConflict(events);
      if conflict.Some? {
        return;
      }
      events := DedupByIdentity(events);
      holders := SortDedup(HolderLe(), holders);
      controllers := SortDedup(StrLe(), controllers);
      verifications := MergeVerifications(verifications);
      provenance := SortDedup(ObservationLe(), provenance);
      failures := SortDedup(StrLe(), failures);
    }
  }
}
