/** Wash cycles among malicious traders and the sales that leave them: the two
    accounting passes, and that what they count does not depend on how the
    cycles are numbered or on whether event lists are collected.
 */
module WashCycles {
  import opened Orders
  import opened Graph
  import opened Events
  import opened GraphBuild
  import opened Tarjan
  import opened Attribution

  // ----- cycles -----

  function MaliciousSales(malicious: set<string>): NormalizedEvent -> bool {
    (e: NormalizedEvent) => e.IsNftSale() && e.sender.Some? && e.sender.value in malicious
                            && e.receiver.Some? && e.receiver.value in malicious
  }

  /** The arrows between malicious addresses are their paid sales to each other. */
  lemma MaliciousArrows(events: seq<NormalizedEvent>, malicious: set<string>, a: string, b: string)
    ensures IsArrow(events, MaliciousSales(malicious), a, b)
            <==> a in malicious && b in malicious && exists e :: e in events && Sold(e, a, b)
  {
    forall e
      ensures Sold(e, a, b) && a in malicious && b in malicious
              <==> MaliciousSales(malicious)(e) && e.sender == Some(a) && e.receiver == Some(b)
    {
      SoldAndMoved(e, a, b);
    }
  }

  /** The cycles are the classes, of two or more addresses, of mutual
      reachability by sales between malicious addresses. */
  ghost predicate AreCycles(events: seq<NormalizedEvent>, malicious: set<string>, cycles: seq<set<string>>) {
    && (forall c | 0 <= c < |cycles| :: |cycles[c]| >= 2)
    && (forall c, a, b | 0 <= c < |cycles| && a in cycles[c] ::
          b in cycles[c] <==> MutualAddresses(events, MaliciousSales(malicious), a, b))
    && (forall a, b | a != b && MutualAddresses(events, MaliciousSales(malicious), a, b) ::
          exists c :: 0 <= c < |cycles| && a in cycles[c])
    && Disjoint(cycles)
  }

  ghost predicate Disjoint(cycles: seq<set<string>>) {
    forall c, d | 0 <= c < |cycles| && 0 <= d < |cycles| && c != d :: cycles[c] !! cycles[d]
  }

  lemma TwoMembers(s: set<string>) returns (a: string, b: string)
    requires |s| >= 2
    ensures a in s && b in s && a != b
  {
    a :| a in s;
    assert |s - {a}| == |s| - 1;
    b :| b in s - {a};
  }

  lemma CycleListedToo(events: seq<NormalizedEvent>, malicious: set<string>, x: seq<set<string>>, y: seq<set<string>>,
                       c: nat)
    requires AreCycles(events, malicious, x) && AreCycles(events, malicious, y) && c < |x|
    ensures x[c] in y
  {
    var a, b := TwoMembers(x[c]);
    assert MutualAddresses(events, MaliciousSales(malicious), a, b);
    var d :| 0 <= d < |y| && a in y[d];
    forall s
      ensures s in x[c] <==> s in y[d]
    {
      assert a in x[c] && (s in x[c] <==> MutualAddresses(events, MaliciousSales(malicious), a, s));
      assert a in y[d] && (s in y[d] <==> MutualAddresses(events, MaliciousSales(malicious), a, s));
    }
    assert x[c] == y[d];
  }

  lemma CyclesDistinct(events: seq<NormalizedEvent>, malicious: set<string>, x: seq<set<string>>)
    requires AreCycles(events, malicious, x)
    ensures NoDuplicates(x)
  {
    forall c, d | 0 <= c < d < |x|
      ensures x[c] != x[d]
    {
      var a, b := TwoMembers(x[c]);
    }
  }

  /** Two listings of the cycles differ only in their numbering. */
  lemma CyclesUnique(events: seq<NormalizedEvent>, malicious: set<string>, x: seq<set<string>>, y: seq<set<string>>)
    requires AreCycles(events, malicious, x) && AreCycles(events, malicious, y)
    ensures multiset(x) == multiset(y)
  {
    CyclesDistinct(events, malicious, x);
    CyclesDistinct(events, malicious, y);
    NoDuplicatesCounts(x);
    NoDuplicatesCounts(y);
    forall s: set<string>
      ensures multiset(x)[s] == multiset(y)[s]
    {
      if s in x {
        var c: nat :| c < |x| && x[c] == s;
        CycleListedToo(events, malicious, x, y, c);
      }
      if s in y {
        var c: nat :| c < |y| && y[c] == s;
        CycleListedToo(events, malicious, y, x, c);
      }
      assert s in multiset(x) <==> s in x;
      assert s in multiset(y) <==> s in y;
    }
  }

  // ----- from components to cycles -----

  method FindCycles(events: seq<NormalizedEvent>, malicious: set<string>) returns (cycles: seq<set<string>>)
    ensures AreCycles(events, malicious, cycles)
  {
    var g := BuildFiltered(events, MaliciousSales(malicious));
    var components := StronglyConnectedComponents(g);
    VerticesListed(g, components);
    cycles := [];
    ghost var from: seq<nat> := [];
    for c := 0 to |components|
      invariant Washed(g, components, c, cycles, from)
    {
      if |components[c]| >= 2 {
        cycles := cycles + [Members(g, components[c])];
        from := from + [c];
      }
    }
    WashedAreCycles(g, components, events, malicious, cycles, from);
  }

  /** `cycles` are the members of the first n components that have two or more,
      and `from` says which component each comes from. */
  ghost predicate Washed(g: PropagationGraph, components: seq<seq<nat>>, n: nat, cycles: seq<set<string>>,
                         from: seq<nat>) {
    && AllVertices(g, components) && n <= |components| && |cycles| == |from|
    && (forall k | 0 <= k < |from| :: from[k] < n && |components[from[k]]| >= 2
                                      && cycles[k] == Members(g, components[from[k]]))
    && (forall k, l | 0 <= k < l < |from| :: from[k] < from[l])
    && (forall c: nat | c < n && |components[c]| >= 2 :: c in from)
  }

  lemma CycleClass(g: PropagationGraph, components: seq<seq<nat>>, events: seq<NormalizedEvent>, malicious: set<string>,
                   c: nat, a: string, b: string)
    requires IsGraphOf(g, events, MaliciousSales(malicious)) && g.WellFormed() && SccDecomposition(g, components)
    requires AllVertices(g, components) && c < |components| && |components[c]| >= 2
    requires a in Members(g, components[c])
    ensures b in Members(g, components[c]) <==> MutualAddresses(events, MaliciousSales(malicious), a, b)
  {
    hide IsGraphOf, AddressReach, SccDecomposition;
    var keep := MaliciousSales(malicious);
    var i: nat :| i < |components[c]| && g.addresses[components[c][i]] == a;
    if b in Members(g, components[c]) {
      var j: nat :| j < |components[c]| && g.addresses[components[c][j]] == b;
      SameComponentReach(g, components, c, i, j);
      ReachToAddresses(g, events, keep, components[c][i], components[c][j]);
      ReachToAddresses(g, events, keep, components[c][j], components[c][i]);
    }
    if MutualAddresses(events, keep, a, b) && a != b {
      MutualAreVertices(g, events, keep, b, a);
      var u := components[c][i];
      var v: nat :| v < g.Count() && g.addresses[v] == b;
      SameComponentReach(g, components, c, i, i);
      AddressesToReach(g, events, keep, u, v);
      AddressesToReach(g, events, keep, v, u);
      var d, k, l := CommonComponent(g, components, u, v);
      VertexOnce(g, components, c, i, d, k);
      assert g.addresses[components[c][l]] == b;
    }
  }

  lemma VertexOnce(g: PropagationGraph, components: seq<seq<nat>>, c: nat, i: nat, d: nat, k: nat)
    requires g.WellFormed() && SccDecomposition(g, components)
    requires c < |components| && i < |components[c]| && d < |components| && k < |components[d]|
    requires components[c][i] == components[d][k]
    ensures c == d
  {
    var home :| ComponentsOf(g, components, home);
    MemberHome(g, components, home, c, components[c][i]);
    MemberHome(g, components, home, d, components[d][k]);
  }

  lemma CycleSize(g: PropagationGraph, components: seq<seq<nat>>, events: seq<NormalizedEvent>,
                  keep: NormalizedEvent -> bool,
                  c: nat)
    requires IsGraphOf(g, events, keep) && g.WellFormed() && SccDecomposition(g, components)
    requires AllVertices(g, components) && c < |components| && |components[c]| >= 2
    ensures |Members(g, components[c])| >= 2
  {
    var home :| ComponentsOf(g, components, home);
    var u, v := components[c][0], components[c][1];
    assert u < v;
    assert g.addresses[u] != g.addresses[v];
    var pair := {g.addresses[u], g.addresses[v]};
    assert pair <= Members(g, components[c]);
    SubsetSize(pair, Members(g, components[c]));
  }

  lemma SubsetSize<T>(a: set<T>, b: set<T>)
    requires a <= b
    ensures |a| <= |b|
  {
    assert b == a + (b - a);
  }

  lemma CycleExists(g: PropagationGraph, components: seq<seq<nat>>, events: seq<NormalizedEvent>,
                    keep: NormalizedEvent -> bool,
                    a: string, b: string) returns (c: nat)
    requires IsGraphOf(g, events, keep) && g.WellFormed() && SccDecomposition(g, components)
    requires AllVertices(g, components) && a != b && MutualAddresses(events, keep, a, b)
    ensures c < |components| && |components[c]| >= 2 && a in Members(g, components[c])
  {
    MutualAreVertices(g, events, keep, a, b);
    MutualAreVertices(g, events, keep, b, a);
    hide IsGraphOf, AddressReach, SccDecomposition;
    var u: nat :| u < g.Count() && g.addresses[u] == a;
    var v: nat :| v < g.Count() && g.addresses[v] == b;
    AddressesToReach(g, events, keep, u, v);
    AddressesToReach(g, events, keep, v, u);
    var d, i, j := CommonComponent(g, components, u, v);
    c := d;
    assert i != j;
  }

  lemma WashedAreCycles(g: PropagationGraph, components: seq<seq<nat>>, events: seq<NormalizedEvent>,
                        malicious: set<string>,
                        cycles: seq<set<string>>, from: seq<nat>)
    requires IsGraphOf(g, events, MaliciousSales(malicious)) && g.WellFormed() && SccDecomposition(g, components)
    requires Washed(g, components, |components|, cycles, from)
    ensures AreCycles(events, malicious, cycles)
  {
    hide IsGraphOf, AddressReach, MutualAddresses, SccDecomposition, Members;
    var keep := MaliciousSales(malicious);
    forall c | 0 <= c < |cycles|
      ensures |cycles[c]| >= 2
    {
      CycleSize(g, components, events, keep, from[c]);
    }
    forall c, a, b | 0 <= c < |cycles| && a in cycles[c]
      ensures b in cycles[c] <==> MutualAddresses(events, keep, a, b)
    {
      CycleClass(g, components, events, malicious, from[c], a, b);
    }
    forall a, b | a != b && MutualAddresses(events, keep, a, b)
      ensures exists c :: 0 <= c < |cycles| && a in cycles[c]
    {
      var d := CycleExists(g, components, events, keep, a, b);
      var k :| 0 <= k < |from| && from[k] == d;
      assert a in cycles[k];
    }
    forall c, d | 0 <= c < |cycles| && 0 <= d < |cycles| && c != d
      ensures cycles[c] !! cycles[d]
    {
      assert from[c] != from[d] by { if c < d { assert from[c] < from[d]; } else { assert from[d] < from[c]; } }
      forall a | a in cycles[c]
        ensures a !in cycles[d]
      {
        if a in cycles[d] {
          NameOnce(g, components, events, keep, from[c], from[d], a);
        }
      }
    }
  }

  lemma NameOnce(g: PropagationGraph, components: seq<seq<nat>>, events: seq<NormalizedEvent>,
                 keep: NormalizedEvent -> bool,
                 c: nat, d: nat, a: string)
    requires IsGraphOf(g, events, keep) && g.WellFormed() && SccDecomposition(g, components)
    requires AllVertices(g, components) && c < |components| && d < |components|
    requires a in Members(g, components[c]) && a in Members(g, components[d])
    ensures c == d
  {
    var i: nat :| i < |components[c]| && g.addresses[components[c][i]] == a;
    var k: nat :| k < |components[d]| && g.addresses[components[d][k]] == a;
    var u, v := components[c][i], components[d][k];
    assert u == v;
    VertexOnce(g, components, c, i, d, k);
  }

  // ----- the accounting -----

  /** Sums and counts of one side of a cycle, in each currency. */
  datatype Totals = Totals(nativeSum: int, nativeCount: nat, usdSum: int, usdCount: nat)

  const NOTHING := Totals(0, 0, 0, 0)

  datatype CycleValues = CycleValues(end: Option<int>, inside: Totals, exits: Totals,
                                     internalEvents: seq<nat>, exitEvents: seq<nat>)

  function AddValue(t: Totals, e: NormalizedEvent): Totals {
    var t1 := if e.nativeAmount.Some? && e.nativeAmount.value >= 0
              then t.(nativeSum := SatAdd(t.nativeSum, e.nativeAmount.value), nativeCount := t.nativeCount + 1) else t;
    if e.usdMicros.Some? && e.usdMicros.value >= 0
    then t1.(usdSum := SatAdd(t1.usdSum, e.usdMicros.value), usdCount := t1.usdCount + 1) else t1
  }

  function Later(a: Option<int>, b: Option<int>): Option<int> {
    if a.None? then b else if b.None? then a else if a.value < b.value then b else a
  }

  /** A sale whose both ends are in the cycle. */
  predicate Internal(e: NormalizedEvent, cycle: set<string>) {
    e.IsNftSale() && e.sender.Some? && e.sender.value in cycle && e.receiver.Some? && e.receiver.value in cycle
  }

  /** A sale from the cycle to an honest address outside it, after `end`. */
  predicate Exit(e: NormalizedEvent, honest: set<string>, cycle: set<string>, end: Option<int>) {
    e.IsNftSale() && e.sender.Some? && e.sender.value in cycle
    && e.receiver.Some? && e.receiver.value in honest && e.receiver.value !in cycle
    && end.Some? && e.timestamp.Some? && e.timestamp.value > end.value
  }

  // ----- what the passes must arrive at -----

  ghost function InternalEvents(events: seq<NormalizedEvent>, cycle: set<string>, n: nat): (r: seq<nat>)
    requires n <= |events|
    ensures forall k | 0 <= k < |r| :: r[k] < n
  {
    if n == 0 then []
    else InternalEvents(events, cycle, n - 1) + if Internal(events[n - 1], cycle) then [n - 1] else []
  }

  ghost function CycleEnd(events: seq<NormalizedEvent>, cycle: set<string>, n: nat): Option<int>
    requires n <= |events|
  {
    if n == 0 then None
    else if Internal(events[n - 1], cycle) then Later(CycleEnd(events, cycle, n - 1), events[n - 1].timestamp)
    else CycleEnd(events, cycle, n - 1)
  }

  ghost function ExitEvents(events: seq<NormalizedEvent>, honest: set<string>, cycle: set<string>,
                            n: nat): (r: seq<nat>)
    requires n <= |events|
    ensures forall k | 0 <= k < |r| :: r[k] < n
  {
    if n == 0 then []
    else
      ExitEvents(events, honest, cycle, n - 1)
      + if Exit(events[n - 1], honest, cycle, CycleEnd(events, cycle, |events|)) then [n - 1] else []
  }

  ghost function TotalsOf(events: seq<NormalizedEvent>, chosen: seq<nat>): Totals
    requires forall k | 0 <= k < |chosen| :: chosen[k] < |events|
  {
    if chosen == [] then NOTHING
    else AddValue(TotalsOf(events, chosen[..|chosen| - 1]), events[chosen[|chosen| - 1]])
  }

  lemma {:induction false} InternalListed(events: seq<NormalizedEvent>, cycle: set<string>, n: nat)
    requires n <= |events|
    ensures forall i: nat :: i in InternalEvents(events, cycle, n) <==> i < n && Internal(events[i], cycle)
    ensures Ascending(InternalEvents(events, cycle, n))
  {
    if n > 0 {
      InternalListed(events, cycle, n - 1);
    }
  }

  lemma {:induction false} ExitListed(events: seq<NormalizedEvent>, honest: set<string>, cycle: set<string>, n: nat)
    requires n <= |events|
    ensures forall i: nat :: i in ExitEvents(events, honest, cycle, n)
                        <==> i < n && Exit(events[i], honest, cycle, CycleEnd(events, cycle, |events|))
    ensures Ascending(ExitEvents(events, honest, cycle, n))
  {
    if n > 0 {
      ExitListed(events, honest, cycle, n - 1);
    }
  }

  /** The end is the latest timestamp of an internal sale. */
  lemma {:induction false} EndIsLatest(events: seq<NormalizedEvent>, cycle: set<string>, n: nat)
    requires n <= |events|
    ensures forall i | 0 <= i < n && Internal(events[i], cycle) && events[i].timestamp.Some? ::
              CycleEnd(events, cycle, n).Some? && events[i].timestamp.value <= CycleEnd(events, cycle, n).value
    ensures CycleEnd(events, cycle, n).Some? ==>
              exists i :: 0 <= i < n && Internal(events[i], cycle) && events[i].timestamp == CycleEnd(events, cycle, n)
  {
    if n > 0 {
      EndIsLatest(events, cycle, n - 1);
    }
  }

  /** What one cycle's record must hold after both passes. */
  ghost function Expected(events: seq<NormalizedEvent>, honest: set<string>, cycle: set<string>,
                          collect: bool): CycleValues {
    var n := |events|;
    var inside, exits := InternalEvents(events, cycle, n), ExitEvents(events, honest, cycle, n);
    CycleValues(CycleEnd(events, cycle, n), TotalsOf(events, inside), TotalsOf(events, exits),
                if collect then inside else [], if collect then exits else [])
  }

  ghost predicate AfterInternal(events: seq<NormalizedEvent>, cycle: set<string>, n: nat, collect: bool, v: CycleValues)
    requires n <= |events|
  {
    var inside := InternalEvents(events, cycle, n);
    v == CycleValues(CycleEnd(events, cycle, n), TotalsOf(events, inside), NOTHING, if collect then inside else [], [])
  }

  ghost predicate AfterExits(events: seq<NormalizedEvent>, honest: set<string>, cycle: set<string>, n: nat,
                             collect: bool,
                             v: CycleValues)
    requires n <= |events|
  {
    var inside, exits := InternalEvents(events, cycle, |events|), ExitEvents(events, honest, cycle, n);
    v == CycleValues(CycleEnd(events, cycle, |events|), TotalsOf(events, inside), TotalsOf(events, exits),
                     if collect then inside else [], if collect then exits else [])
  }

  // ----- the passes -----

  /** `washByAddress` numbers the members of the cycles. */
  ghost predicate Numbers(washByAddress: map<string, nat>, cycles: seq<set<string>>) {
    && (forall a | a in washByAddress :: washByAddress[a] < |cycles|)
    && (forall a, c: nat | c < |cycles| :: a in cycles[c] <==> a in washByAddress && washByAddress[a] == c)
  }

  method NumberCycles(cycles: seq<set<string>>) returns (washByAddress: map<string, nat>)
    requires Disjoint(cycles)
    ensures Numbers(washByAddress, cycles)
  {
    washByAddress := map[];
    for c := 0 to |cycles|
      invariant forall a | a in washByAddress :: washByAddress[a] < c
      invariant forall a, d: nat | d < c :: a in cycles[d] <==> a in washByAddress && washByAddress[a] == d
    {
      washByAddress := washByAddress + map a | a in cycles[c] :: c;
    }
  }

  method InternalPass(events: seq<NormalizedEvent>, cycles: seq<set<string>>, washByAddress: map<string, nat>,
                      collect: bool)
    returns (values: seq<CycleValues>)
    requires Numbers(washByAddress, cycles)
    ensures |values| == |cycles|
    ensures forall c | 0 <= c < |cycles| :: AfterInternal(events, cycles[c], |events|, collect, values[c])
  {
    values := seq(|cycles|, _ => CycleValues(None, NOTHING, NOTHING, [], []));
    for i := 0 to |events|
      invariant |values| == |cycles|
      invariant forall c | 0 <= c < |cycles| :: AfterInternal(events, cycles[c], i, collect, values[c])
    {
      var e := events[i];
      ghost var before := values;
      if e.sender.Some? && e.IsNftSale() && e.receiver.Some?
         && e.sender.value in washByAddress && e.receiver.value in washByAddress
         && washByAddress[e.sender.value] == washByAddress[e.receiver.value] {
        var left := washByAddress[e.sender.value];
        var v := values[left];
        values := values[left := v.(end := Later(v.end, e.timestamp), inside := AddValue(v.inside, e),
                                    internalEvents := if collect then v.internalEvents + [i] else v.internalEvents)];
        assert e.sender.value in cycles[left] && e.receiver.value in cycles[left];
      }
      forall c: nat | c < |cycles|
        ensures AfterInternal(events, cycles[c], i + 1, collect, values[c])
      {
        assert AfterInternal(events, cycles[c], i, collect, before[c]);
        InternalStep(events, cycles[c], i, collect, before[c], values[c]);
      }
    }
  }

  lemma InternalStep(events: seq<NormalizedEvent>, cycle: set<string>, i: nat, collect: bool, v: CycleValues,
                     w: CycleValues)
    requires i < |events| && AfterInternal(events, cycle, i, collect, v)
    requires w == if Internal(events[i], cycle)
                  then v.(end := Later(v.end, events[i].timestamp), inside := AddValue(v.inside, events[i]),
                          internalEvents := if collect then v.internalEvents + [i] else v.internalEvents)
                  else v
    ensures AfterInternal(events, cycle, i + 1, collect, w)
  {
    var inside := InternalEvents(events, cycle, i);
    assert (inside + [i])[..|inside|] == inside && inside + [] == inside;
  }

  method ExitPass(events: seq<NormalizedEvent>, cycles: seq<set<string>>, washByAddress: map<string, nat>,
                  honest: set<string>, collect: bool, inside: seq<CycleValues>)
    returns (values: seq<CycleValues>)
    requires Numbers(washByAddress, cycles) && |inside| == |cycles|
    requires forall c | 0 <= c < |cycles| :: AfterInternal(events, cycles[c], |events|, collect, inside[c])
    ensures |values| == |cycles|
    ensures forall c | 0 <= c < |cycles| :: values[c] == Expected(events, honest, cycles[c], collect)
  {
    forall c: nat | c < |cycles|
      ensures AfterExits(events, honest, cycles[c], 0, collect, inside[c])
    {
      assert AfterInternal(events, cycles[c], |events|, collect, inside[c]);
    }
    values := inside;
    hide AfterExits, AfterInternal, Expected, Exit, Numbers;
    for i := 0 to |events|
      invariant |values| == |cycles|
      invariant forall c | 0 <= c < |cycles| :: AfterExits(events, honest, cycles[c], i, collect, values[c])
    {
      ghost var before := values;
      values := RecordExit(events, cycles, washByAddress, honest, collect, i, values);
      forall c: nat | c < |cycles|
        ensures AfterExits(events, honest, cycles[c], i + 1, collect, values[c])
      {
        assert AfterExits(events, honest, cycles[c], i, collect, before[c]);
        ExitStep(events, honest, cycles[c], i, collect, before[c], values[c]);
      }
    }
    forall c: nat | c < |cycles|
      ensures values[c] == Expected(events, honest, cycles[c], collect)
    {
      assert AfterExits(events, honest, cycles[c], |events|, collect, values[c]);
      ExitsDone(events, honest, cycles[c], collect, values[c]);
    }
  }

  lemma ExitsDone(events: seq<NormalizedEvent>, honest: set<string>, cycle: set<string>, collect: bool, v: CycleValues)
    requires AfterExits(events, honest, cycle, |events|, collect, v)
    ensures v == Expected(events, honest, cycle, collect)
  {
  }

  method RecordExit(events: seq<NormalizedEvent>, cycles: seq<set<string>>, washByAddress: map<string, nat>,
                    honest: set<string>, collect: bool, i: nat, before: seq<CycleValues>)
    returns (values: seq<CycleValues>)
    requires Numbers(washByAddress, cycles) && |before| == |cycles| && i < |events|
    ensures |values| == |before|
    ensures forall c | 0 <= c < |cycles| ::
              values[c] == if Exit(events[i], honest, cycles[c], before[c].end)
                           then before[c].(exits := AddValue(before[c].exits, events[i]),
                                           exitEvents := if collect then before[c].exitEvents + [i]
                                                         else before[c].exitEvents)
                           else before[c]
  {
    var e := events[i];
    values := before;
    if e.IsNftSale() && e.sender.Some? && e.sender.value in washByAddress && e.receiver.Some? {
      var washId := washByAddress[e.sender.value];
      var v := values[washId];
      var to := e.receiver.value;
      assert e.sender.value in cycles[washId];
      if to in honest && !(to in washByAddress && washByAddress[to] == washId)
         && v.end.Some? && e.timestamp.Some? && e.timestamp.value > v.end.value {
        values := values[washId := v.(exits := AddValue(v.exits, e),
                                      exitEvents := if collect then v.exitEvents + [i] else v.exitEvents)];
      }
    }
  }

  lemma ExitStep(events: seq<NormalizedEvent>, honest: set<string>, cycle: set<string>, i: nat, collect: bool,
                 v: CycleValues, w: CycleValues)
    requires i < |events| && AfterExits(events, honest, cycle, i, collect, v)
    requires w == if Exit(events[i], honest, cycle, v.end)
                  then v.(exits := AddValue(v.exits, events[i]),
                          exitEvents := if collect then v.exitEvents + [i] else v.exitEvents)
                  else v
    ensures AfterExits(events, honest, cycle, i + 1, collect, w)
  {
    var exits := ExitEvents(events, honest, cycle, i);
    assert (exits + [i])[..|exits|] == exits && exits + [] == exits;
  }

  // ----- properties of the result -----

  /** A sale is internal to at most one cycle, and an internal sale of one cycle
      is never an exit of any cycle. */
  lemma InternalOnce(events: seq<NormalizedEvent>, malicious: set<string>, honest: set<string>,
                     cycles: seq<set<string>>,
                     c: nat, d: nat, i: nat)
    requires AreCycles(events, malicious, cycles) && c < |cycles| && d < |cycles|
    requires i in Expected(events, honest, cycles[c], true).internalEvents
    ensures i in Expected(events, honest, cycles[d], true).internalEvents ==> c == d
    ensures i !in Expected(events, honest, cycles[d], true).exitEvents
  {
    InternalListed(events, cycles[c], |events|);
    InternalListed(events, cycles[d], |events|);
    ExitListed(events, honest, cycles[d], |events|);
    assert events[i].sender.value in cycles[c] && events[i].receiver.value in cycles[c];
    assert c != d ==> cycles[c] !! cycles[d];
  }

  /** Every exit is strictly later than every timestamped internal sale. */
  lemma ExitsAreLater(events: seq<NormalizedEvent>, honest: set<string>, cycle: set<string>, i: nat, j: nat)
    requires i in Expected(events, honest, cycle, true).exitEvents
    requires j in Expected(events, honest, cycle, true).internalEvents
    ensures i < |events| && j < |events| && events[i].timestamp.Some?
    ensures events[j].timestamp.Some? ==> events[j].timestamp.value < events[i].timestamp.value
  {
    InternalListed(events, cycle, |events|);
    ExitListed(events, honest, cycle, |events|);
    EndIsLatest(events, cycle, |events|);
  }

  // ----- pump and exit -----

  /** `checked_mul` of an i128 by a count. */
  function CheckedMul(a: int, b: nat): Option<int> {
    if I128_MIN <= a * b <= I128_MAX then Some(a * b) else None
  }

  /** Compares two averages exactly, and by floating point only when a product
      does not fit; that comparison is the parameter `rounded`. */
  predicate AverageExceeds(rounded: (int, nat, int, nat) -> bool, leftSum: int, leftCount: nat, rightSum: int,
                           rightCount: nat) {
    match (CheckedMul(leftSum, rightCount), CheckedMul(rightSum, leftCount))
    case (Some(left), Some(right)) => left > right
    case _ => rounded(leftSum, leftCount, rightSum, rightCount)
  }

  predicate ExitPriceExceedsInternal(rounded: (int, nat, int, nat) -> bool, v: CycleValues) {
    if v.inside.usdCount > 0 && v.exits.usdCount > 0
    then AverageExceeds(rounded, v.exits.usdSum, v.exits.usdCount, v.inside.usdSum, v.inside.usdCount)
    else v.inside.nativeCount > 0 && v.exits.nativeCount > 0
         && AverageExceeds(rounded, v.exits.nativeSum, v.exits.nativeCount, v.inside.nativeSum, v.inside.nativeCount)
  }

  /** Whenever both products fit, the comparison is that of the exact averages. */
  lemma AverageExceedsIsExact(rounded: (int, nat, int, nat) -> bool, leftSum: int, leftCount: nat, rightSum: int,
                              rightCount: nat)
    requires leftCount > 0 && rightCount > 0
    requires I128_MIN <= leftSum * rightCount <= I128_MAX && I128_MIN <= rightSum * leftCount <= I128_MAX
    ensures AverageExceeds(rounded, leftSum, leftCount, rightSum, rightCount)
            <==> leftSum as real / leftCount as real > rightSum as real / rightCount as real
  {
    var a, b := leftSum as real / leftCount as real, rightSum as real / rightCount as real;
    var l, r := leftCount as real, rightCount as real;
    assert a * l == leftSum as real && b * r == rightSum as real;
    assert leftSum as real * r == (leftSum * rightCount) as real;
    assert rightSum as real * l == (rightSum * leftCount) as real;
    assert leftSum as real * r == a * (l * r) && rightSum as real * l == b * (l * r);
    assert l * r > 0.0;
    if a > b {
      assert (a - b) * (l * r) > 0.0;
    } else {
      assert (b - a) * (l * r) >= 0.0;
    }
  }

  ghost function Pumps(events: seq<NormalizedEvent>, honest: set<string>, rounded: (int, nat, int, nat) -> bool)
    : set<string> -> int
  {
    (cycle: set<string>) => if ExitPriceExceedsInternal(rounded, Expected(events, honest, cycle, true)) then 1 else 0
  }

  // ----- what a pump is, on the events -----

  function UsdOf(): NormalizedEvent -> Option<int> { (e: NormalizedEvent) => e.usdMicros }

  function NativeOf(): NormalizedEvent -> Option<int> { (e: NormalizedEvent) => e.nativeAmount }

  function Priced(amount: Option<int>): seq<nat> {
    if amount.Some? && amount.value >= 0 then [amount.value] else []
  }

  /** The prices of the chosen events in one currency: those given and not negative. */
  ghost function Prices(events: seq<NormalizedEvent>, chosen: seq<nat>, amount: NormalizedEvent -> Option<int>)
    : (r: seq<nat>)
    requires forall k | 0 <= k < |chosen| :: chosen[k] < |events|
  {
    if chosen == [] then []
    else Prices(events, chosen[..|chosen| - 1], amount) + Priced(amount(events[chosen[|chosen| - 1]]))
  }

  function Sum(prices: seq<nat>): nat {
    if prices == [] then 0 else Sum(prices[..|prices| - 1]) + prices[|prices| - 1]
  }

  function Average(prices: seq<nat>): real
    requires prices != []
  {
    Sum(prices) as real / |prices| as real
  }

  /** The prices inside and after the cycle, and whether the products of the comparison
      fit an `i128`. */
  ghost function InsidePrices(events: seq<NormalizedEvent>, cycle: set<string>, amount: NormalizedEvent -> Option<int>)
    : seq<nat>
  {
    Prices(events, InternalEvents(events, cycle, |events|), amount)
  }

  ghost function ExitPrices(events: seq<NormalizedEvent>, honest: set<string>, cycle: set<string>,
                            amount: NormalizedEvent -> Option<int>): seq<nat>
  {
    Prices(events, ExitEvents(events, honest, cycle, |events|), amount)
  }

  predicate ProductsFit(a: seq<nat>, b: seq<nat>) {
    Sum(a) * |b| <= I128_MAX && Sum(b) * |a| <= I128_MAX
  }

  /** Both sides have prices, and the average of the second is higher. */
  ghost predicate Rises(inside: seq<nat>, exits: seq<nat>) {
    inside != [] && exits != [] && Average(exits) > Average(inside)
  }

  /** The cycle sells out to honest buyers at a higher average price than it traded at
      inside: in dollars if both sides have dollar prices, else in native amounts. */
  ghost predicate IsPump(events: seq<NormalizedEvent>, honest: set<string>, cycle: set<string>) {
    var inUsd, exitUsd := InsidePrices(events, cycle, UsdOf()), ExitPrices(events, honest, cycle, UsdOf());
    if inUsd != [] && exitUsd != [] then Rises(inUsd, exitUsd)
    else Rises(InsidePrices(events, cycle, NativeOf()), ExitPrices(events, honest, cycle, NativeOf()))
  }

  ghost predicate PricesFit(events: seq<NormalizedEvent>, honest: set<string>, cycle: set<string>) {
    && ProductsFit(ExitPrices(events, honest, cycle, UsdOf()), InsidePrices(events, cycle, UsdOf()))
    && ProductsFit(ExitPrices(events, honest, cycle, NativeOf()), InsidePrices(events, cycle, NativeOf()))
  }

  function ClipSum(prices: seq<nat>): int { if Sum(prices) > I128_MAX then I128_MAX else Sum(prices) }

  lemma SumAppend(prices: seq<nat>, price: nat)
    ensures Sum(prices + [price]) == Sum(prices) + price
  {
    assert (prices + [price])[..|prices|] == prices;
  }

  lemma ClipNext(prices: seq<nat>, amount: Option<int>)
    ensures var longer := prices + Priced(amount);
      if amount.Some? && amount.value >= 0
      then |longer| == |prices| + 1 && ClipSum(longer) == SatAdd(ClipSum(prices), amount.value)
      else longer == prices
  {
    if amount.Some? && amount.value >= 0 {
      SumAppend(prices, amount.value);
    }
  }

  /** The accumulated totals are the counts and the clipped sums of the prices. */
  ghost predicate AreTotals(t: Totals, usd: seq<nat>, native: seq<nat>) {
    t.usdCount == |usd| && t.usdSum == ClipSum(usd) && t.nativeCount == |native| && t.nativeSum == ClipSum(native)
  }

  lemma AddValueAddsPrices(t: Totals, usd: seq<nat>, native: seq<nat>, e: NormalizedEvent)
    requires AreTotals(t, usd, native)
    ensures AreTotals(AddValue(t, e), usd + Priced(e.usdMicros), native + Priced(e.nativeAmount))
  {
    ClipNext(usd, e.usdMicros);
    ClipNext(native, e.nativeAmount);
    hide ClipSum, SatAdd, Priced;
  }

  lemma {:induction false} TotalsArePrices(events: seq<NormalizedEvent>, chosen: seq<nat>)
    requires forall k | 0 <= k < |chosen| :: chosen[k] < |events|
    ensures AreTotals(TotalsOf(events, chosen), Prices(events, chosen, UsdOf()), Prices(events, chosen, NativeOf()))
  {
    if chosen != [] {
      var init, e := chosen[..|chosen| - 1], events[chosen[|chosen| - 1]];
      TotalsArePrices(events, init);
      hide AreTotals, AddValue, Priced;
      AddValueAddsPrices(TotalsOf(events, init), Prices(events, init, UsdOf()), Prices(events, init, NativeOf()), e);
    }
  }

  /** On prices whose products fit the comparison decides which average is higher. */
  lemma ComparisonDecides(rounded: (int, nat, int, nat) -> bool, left: seq<nat>, right: seq<nat>)
    requires left != [] && right != [] && ProductsFit(left, right)
    ensures AverageExceeds(rounded, ClipSum(left), |left|, ClipSum(right), |right|) <==> Average(left) > Average(right)
  {
    FactorFits(Sum(left), |right|);
    FactorFits(Sum(right), |left|);
    AverageExceedsIsExact(rounded, Sum(left), |left|, Sum(right), |right|);
  }

  lemma FactorFits(sum: nat, count: nat)
    requires count > 0 && sum * count <= I128_MAX
    ensures sum <= I128_MAX && sum * count >= 0
  {
    assert sum * count >= sum * 1;
  }

  /** The verdict on the accumulated values is the meaning on the events. */
  lemma PumpVerdict(events: seq<NormalizedEvent>, honest: set<string>, rounded: (int, nat, int, nat) -> bool,
                    cycle: set<string>)
    requires PricesFit(events, honest, cycle)
    ensures Pumps(events, honest, rounded)(cycle) == if IsPump(events, honest, cycle) then 1 else 0
  {
    TotalsArePrices(events, InternalEvents(events, cycle, |events|));
    TotalsArePrices(events, ExitEvents(events, honest, cycle, |events|));
    hide AverageExceeds, Average, ProductsFit, ClipSum, Prices, TotalsOf, InternalEvents, ExitEvents;
    var inUsd, exitUsd := InsidePrices(events, cycle, UsdOf()), ExitPrices(events, honest, cycle, UsdOf());
    var inNative, exitNative := InsidePrices(events, cycle, NativeOf()), ExitPrices(events, honest, cycle, NativeOf());
    if inUsd != [] && exitUsd != [] {
      ComparisonDecides(rounded, exitUsd, inUsd);
    } else if inNative != [] && exitNative != [] {
      ComparisonDecides(rounded, exitNative, inNative);
    }
  }

  ghost function PumpCycles(events: seq<NormalizedEvent>, honest: set<string>, cycles: seq<set<string>>): set<nat> {
    set c: nat | c < |cycles| && IsPump(events, honest, cycles[c])
  }

  lemma PumpCyclesNext(events: seq<NormalizedEvent>, honest: set<string>, cycles: seq<set<string>>, cycle: set<string>)
    ensures |PumpCycles(events, honest, cycles + [cycle])|
            == |PumpCycles(events, honest, cycles)| + if IsPump(events, honest, cycle) then 1 else 0
  {
    hide IsPump;
    if IsPump(events, honest, cycle) {
      assert PumpCycles(events, honest, cycles + [cycle]) == PumpCycles(events, honest, cycles) + {|cycles|};
    } else {
      assert PumpCycles(events, honest, cycles + [cycle]) == PumpCycles(events, honest, cycles);
    }
  }

  /** The pump count is the number of cycles that are pumps. */
  lemma {:induction false} PumpCount(events: seq<NormalizedEvent>, honest: set<string>,
                                     rounded: (int, nat, int, nat) -> bool, cycles: seq<set<string>>)
    requires forall c | 0 <= c < |cycles| :: PricesFit(events, honest, cycles[c])
    ensures SumBy(Pumps(events, honest, rounded), cycles) == |PumpCycles(events, honest, cycles)|
  {
    hide PricesFit, IsPump, Pumps;
    if cycles == [] {
      assert PumpCycles(events, honest, cycles) == {};
    } else {
      var init, last := cycles[..|cycles| - 1], cycles[|cycles| - 1];
      assert cycles == init + [last];
      PumpCount(events, honest, rounded, init);
      SumByConcat(Pumps(events, honest, rounded), init, [last]);
      assert SumBy(Pumps(events, honest, rounded), [last]) == Pumps(events, honest, rounded)(last);
      PumpVerdict(events, honest, rounded, last);
      PumpCyclesNext(events, honest, init, last);
    }
  }

  method DetectWash(events: seq<NormalizedEvent>, malicious: set<string>, honest: set<string>,
                    rounded: (int, nat, int, nat) -> bool, collect: bool)
    returns (cycles: seq<set<string>>, values: seq<CycleValues>, pumpAndExit: nat)
    ensures AreCycles(events, malicious, cycles) && |values| == |cycles|
    ensures forall c | 0 <= c < |cycles| :: values[c] == Expected(events, honest, cycles[c], collect)
    ensures pumpAndExit == SumBy(Pumps(events, honest, rounded), cycles)
    ensures (forall c | 0 <= c < |cycles| :: PricesFit(events, honest, cycles[c])) ==>
              pumpAndExit == |PumpCycles(events, honest, cycles)|
  {
    hide Pumps, PricesFit;
    cycles := FindCycles(events, malicious);
    var washByAddress := NumberCycles(cycles);
    var inside := InternalPass(events, cycles, washByAddress, collect);
    values := ExitPass(events, cycles, washByAddress, honest, collect, inside);
    pumpAndExit := CountPumps(events, honest, rounded, cycles, values, collect);
    if forall c | 0 <= c < |cycles| :: PricesFit(events, honest, cycles[c]) {
      PumpCount(events, honest, rounded, cycles);
    }
  }

  lemma PumpIgnoresCollect(events: seq<NormalizedEvent>, honest: set<string>, rounded: (int, nat, int, nat) -> bool,
                           cycle: set<string>, collect: bool)
    ensures Pumps(events, honest, rounded)(cycle)
            == if ExitPriceExceedsInternal(rounded, Expected(events, honest, cycle, collect)) then 1 else 0
  {
  }

  method CountPumps(ghost events: seq<NormalizedEvent>, ghost honest: set<string>,
                    rounded: (int, nat, int, nat) -> bool,
                    ghost cycles: seq<set<string>>, values: seq<CycleValues>, ghost collect: bool)
    returns (count: nat)
    requires |values| == |cycles|
    requires forall c | 0 <= c < |cycles| :: values[c] == Expected(events, honest, cycles[c], collect)
    ensures count == SumBy(Pumps(events, honest, rounded), cycles)
  {
    hide Expected, ExitPriceExceedsInternal;
    ghost var pumps := Pumps(events, honest, rounded);
    count := 0;
    for c := 0 to |values|
      invariant count == SumBy(pumps, cycles[..c])
    {
      assert cycles[..c + 1] == cycles[..c] + [cycles[c]];
      SumByConcat(pumps, cycles[..c], [cycles[c]]);
      assert SumBy(pumps, [cycles[c]]) == pumps(cycles[c]);
      PumpIgnoresCollect(events, honest, rounded, cycles[c], collect);
      if ExitPriceExceedsInternal(rounded, values[c]) {
        count := count + 1;
      }
    }
    assert cycles[..|cycles|] == cycles;
  }

  /** The counts are the same whether or not event lists are collected, and
      however each run happens to number the cycles. */
  method CompareWashForms(events: seq<NormalizedEvent>, malicious: set<string>, honest: set<string>,
                          rounded: (int, nat, int, nat) -> bool)
    returns (washCycles: nat, pumpAndExit: nat, washCycles': nat, pumpAndExit': nat)
    ensures washCycles == washCycles' && pumpAndExit == pumpAndExit'
  {
    var cycles, values, pump := DetectWash(events, malicious, honest, rounded, true);
    var cycles', values', pump' := DetectWash(events, malicious, honest, rounded, false);
    CyclesUnique(events, malicious, cycles, cycles');
    SameMultisetSameElements(cycles, cycles');
    SumByPermutation(Pumps(events, honest, rounded), cycles, cycles');
    washCycles, pumpAndExit, washCycles', pumpAndExit' := |values|, pump, |values'|, pump';
  }
}
