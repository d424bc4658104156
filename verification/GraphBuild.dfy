/** Building the propagation graph from events, whatever order the hash set of
    addresses is walked in.
 */
module GraphBuild {
  import opened Orders
  import opened Graph
  import opened Events

  // ----- what the graph of an event list is -----

  ghost predicate IsEndpoint(events: seq<NormalizedEvent>, keep: NormalizedEvent -> bool, a: string) {
    exists e :: e in events && keep(e) && (e.sender == Some(a) || e.receiver == Some(a))
  }

  ghost predicate IsArrow(events: seq<NormalizedEvent>, keep: NormalizedEvent -> bool, a: string, b: string) {
    exists e :: e in events && keep(e) && e.sender == Some(a) && e.receiver == Some(b)
  }

  /** The vertices are the endpoints of the included events in ascending order,
      and the edges are exactly their sender-receiver pairs, ascending. */
  ghost predicate IsGraphOf(g: PropagationGraph, events: seq<NormalizedEvent>, keep: NormalizedEvent -> bool) {
    && g.WellFormed()
    && g.AscendingTargets()
    && StrictlySorted(StrLe(), g.addresses)
    && (forall a :: a in g.addresses <==> IsEndpoint(events, keep, a))
    && (forall u: nat, v: nat | u < g.Count() && v < g.Count() ::
          g.Edge(u, v) <==> IsArrow(events, keep, g.addresses[u], g.addresses[v]))
  }

  // ----- counting edges per vertex -----

  type Pair = (nat, nat)

  /** Pairs are ordered by sender, then by receiver. */
  function EdgeLe(): ((Pair, Pair) -> bool) { PairLe(NatLe(), NatLe()) }

  lemma EdgeTotal()
    ensures TotalOrder(EdgeLe())
  {
    PairTotal(NatLe(), NatLe());
  }

  ghost function CountAt(pairs: seq<Pair>, v: nat): nat {
    if pairs == [] then 0
    else CountAt(pairs[..|pairs| - 1], v) + if pairs[|pairs| - 1].0 == v then 1 else 0
  }

  ghost function CountBelow(pairs: seq<Pair>, v: nat): nat {
    if pairs == [] then 0
    else CountBelow(pairs[..|pairs| - 1], v) + if pairs[|pairs| - 1].0 < v then 1 else 0
  }

  lemma {:induction false} CountBelowNext(pairs: seq<Pair>, v: nat)
    ensures CountBelow(pairs, v + 1) == CountBelow(pairs, v) + CountAt(pairs, v)
  {
    if pairs != [] {
      CountBelowNext(pairs[..|pairs| - 1], v);
    }
  }

  lemma {:induction false} CountBelowEnds(pairs: seq<Pair>, n: nat)
    requires forall e | 0 <= e < |pairs| :: pairs[e].0 < n
    ensures CountBelow(pairs, 0) == 0
    ensures CountBelow(pairs, n) == |pairs|
  {
    if pairs != [] {
      CountBelowEnds(pairs[..|pairs| - 1], n);
    }
  }

  /** In sorted pairs the first components below v form a prefix. */
  lemma {:induction false} CountBelowIsPrefix(pairs: seq<Pair>, v: nat)
    requires forall i, j | 0 <= i < j < |pairs| :: pairs[i].0 <= pairs[j].0
    ensures CountBelow(pairs, v) <= |pairs|
    ensures forall e | 0 <= e < |pairs| :: pairs[e].0 < v <==> e < CountBelow(pairs, v)
  {
    if pairs != [] {
      var rest := pairs[..|pairs| - 1];
      CountBelowIsPrefix(rest, v);
      assert forall e | 0 <= e < |rest| :: pairs[e] == rest[e];
      if pairs[|pairs| - 1].0 < v && rest != [] {
        assert rest[|rest| - 1].0 < v;
      }
    }
  }

  lemma {:induction false} CountBelowMonotone(pairs: seq<Pair>, i: nat, j: nat)
    requires i <= j
    ensures CountBelow(pairs, i) <= CountBelow(pairs, j)
  {
    if pairs != [] {
      CountBelowMonotone(pairs[..|pairs| - 1], i, j);
    }
  }

  /** The offsets and targets of strictly sorted pairs form a graph whose edges
      are the pairs. */
  ghost predicate Slotted(pairs: seq<Pair>, n: nat, offsets: seq<nat>) {
    && |offsets| == n + 1
    && (forall v | 0 <= v <= n :: offsets[v] == CountBelow(pairs, v))
    && (forall e | 0 <= e < |pairs| :: pairs[e].0 < n && pairs[e].1 < n)
    && StrictlySorted(EdgeLe(), pairs)
  }

  lemma SlotOwner(pairs: seq<Pair>, n: nat, offsets: seq<nat>, u: nat, e: nat)
    requires Slotted(pairs, n, offsets) && u < n && e < |pairs|
    ensures pairs[e].0 == u <==> offsets[u] <= e < offsets[u + 1]
  {
    CountBelowIsPrefix(pairs, u);
    CountBelowIsPrefix(pairs, u + 1);
  }

  lemma SlottedWellFormed(addresses: seq<string>, pairs: seq<Pair>, offsets: seq<nat>, edges: seq<nat>)
    requires Slotted(pairs, |addresses|, offsets)
    requires |edges| == |pairs| && forall e | 0 <= e < |pairs| :: edges[e] == pairs[e].1
    ensures PropagationGraph(addresses, offsets, edges).WellFormed()
  {
    var n := |addresses|;
    CountBelowEnds(pairs, n);
    forall i, j | 0 <= i <= j <= n
      ensures offsets[i] <= offsets[j]
    {
      CountBelowMonotone(pairs, i, j);
    }
  }

  lemma SlottedAscending(g: PropagationGraph, pairs: seq<Pair>)
    requires g.WellFormed() && Slotted(pairs, g.Count(), g.offsets)
    requires |g.edges| == |pairs| && forall e | 0 <= e < |pairs| :: g.edges[e] == pairs[e].1
    ensures g.AscendingTargets()
  {
    forall u, e, f | 0 <= u < g.Count() && g.offsets[u] <= e < f < g.offsets[u + 1]
      ensures g.edges[e] < g.edges[f]
    {
      SlotInRange(g, u, e);
      SlotInRange(g, u, f);
      SlotOwner(pairs, g.Count(), g.offsets, u, e);
      SlotOwner(pairs, g.Count(), g.offsets, u, f);
      assert EdgeLe()(pairs[e], pairs[f]) && pairs[e] != pairs[f];
    }
  }

  lemma SlottedEdge(g: PropagationGraph, pairs: seq<Pair>, u: nat, v: nat)
    requires g.WellFormed() && Slotted(pairs, g.Count(), g.offsets)
    requires |g.edges| == |pairs| && forall e | 0 <= e < |pairs| :: g.edges[e] == pairs[e].1
    requires u < g.Count() && v < g.Count()
    ensures g.Edge(u, v) <==> (u, v) in pairs
  {
    if g.Edge(u, v) {
      var e: nat :| g.EdgeAt(u, e, v);
      SlotInRange(g, u, e);
      SlotOwner(pairs, g.Count(), g.offsets, u, e);
      assert pairs[e] == (u, v);
    }
    if (u, v) in pairs {
      var e: nat :| e < |pairs| && pairs[e] == (u, v);
      SlotOwner(pairs, g.Count(), g.offsets, u, e);
      assert g.EdgeAt(u, e, v);
    }
  }

  // ----- the build -----

  /** First pass: every address an included event names. */
  method CollectAddresses(events: seq<NormalizedEvent>, keep: NormalizedEvent -> bool) returns (unique: set<string>)
    ensures forall a :: a in unique <==> IsEndpoint(events, keep, a)
  {
    unique := {};
    for i := 0 to |events|
      invariant forall a :: a in unique <==> IsEndpoint(events[..i], keep, a)
    {
      ghost var before := unique;
      if keep(events[i]) {
        unique := unique
                  + (if events[i].sender.Some? then {events[i].sender.value} else {})
                  + (if events[i].receiver.Some? then {events[i].receiver.value} else {});
      }
      forall a
        ensures a in unique <==> IsEndpoint(events[..i + 1], keep, a)
      {
        EndpointNext(events, keep, i, a);
      }
    }
    assert events[..|events|] == events;
  }

  lemma EndpointNext(events: seq<NormalizedEvent>, keep: NormalizedEvent -> bool, i: nat, a: string)
    requires i < |events|
    ensures IsEndpoint(events[..i + 1], keep, a) <==>
              IsEndpoint(events[..i], keep, a)
              || (keep(events[i]) && (events[i].sender == Some(a) || events[i].receiver == Some(a)))
  {
    assert events[..i + 1] == events[..i] + [events[i]];
    if keep(events[i]) && (events[i].sender == Some(a) || events[i].receiver == Some(a)) {
      assert events[i] in events[..i + 1];
    }
  }

  /** The addresses in ascending order, whatever order the set yields them in. */
  method SortAddresses(unique: set<string>) returns (addresses: seq<string>)
    ensures StrictlySorted(StrLe(), addresses)
    ensures forall a :: a in addresses <==> a in unique
  {
    var listed: seq<string> := [];
    var rest := unique;
    while rest != {}
      invariant rest <= unique
      invariant forall a :: a in unique <==> a in rest || a in listed
      decreases rest
    {
      var a :| a in rest;
      rest := rest - {a};
      listed := listed + [a];
    }
    StrTotal();
    addresses := SortDedup(StrLe(), listed);
    SortDedupStrict(StrLe(), listed);
  }

  /** Second pass: the sender-receiver pairs as vertex numbers. */
  method CollectPairs(events: seq<NormalizedEvent>, keep: NormalizedEvent -> bool, addresses: seq<string>)
    returns (pairs: seq<Pair>)
    requires NoDuplicates(addresses)
    requires forall a :: a in addresses <==> IsEndpoint(events, keep, a)
    ensures forall p | p in pairs :: p.0 < |addresses| && p.1 < |addresses|
    ensures forall u: nat, v: nat | u < |addresses| && v < |addresses| ::
              (u, v) in pairs <==> IsArrow(events, keep, addresses[u], addresses[v])
  {
    var byAddress: map<string, nat> := map[];
    for i := 0 to |addresses|
      invariant forall a :: a in byAddress <==> a in addresses[..i]
      invariant forall k: nat | k < i :: byAddress[addresses[k]] == k
    {
      byAddress := byAddress[addresses[i] := i];
    }
    assert addresses[..|addresses|] == addresses;
    pairs := [];
    for i := 0 to |events|
      invariant forall p | p in pairs :: p.0 < |addresses| && p.1 < |addresses|
      invariant forall u: nat, v: nat | u < |addresses| && v < |addresses| ::
          (u, v) in pairs <==> IsArrow(events[..i], keep, addresses[u], addresses[v])
    {
      ghost var before := pairs;
      if keep(events[i]) && events[i].sender.Some? && events[i].receiver.Some? {
        var a, b := events[i].sender.value, events[i].receiver.value;
        assert IsEndpoint(events, keep, a) && IsEndpoint(events, keep, b);
        pairs := pairs + [(byAddress[a], byAddress[b])];
      }
      forall u: nat, v: nat | u < |addresses| && v < |addresses|
        ensures (u, v) in pairs <==> IsArrow(events[..i + 1], keep, addresses[u], addresses[v])
      {
        ArrowNext(events, keep, i, addresses[u], addresses[v]);
        assert byAddress[addresses[u]] == u && byAddress[addresses[v]] == v;
      }
    }
    assert events[..|events|] == events;
  }

  lemma ArrowNext(events: seq<NormalizedEvent>, keep: NormalizedEvent -> bool, i: nat, a: string, b: string)
    requires i < |events|
    ensures IsArrow(events[..i + 1], keep, a, b) <==>
              IsArrow(events[..i], keep, a, b)
              || (keep(events[i]) && events[i].sender == Some(a) && events[i].receiver == Some(b))
  {
    assert events[..i + 1] == events[..i] + [events[i]];
    if keep(events[i]) && events[i].sender == Some(a) && events[i].receiver == Some(b) {
      assert events[i] in events[..i + 1];
    }
  }

  /** Counts the pairs of each vertex, then turns the counts into offsets. */
  method PrefixSums(pairs: seq<Pair>, n: nat) returns (offsets: array<nat>)
    requires forall e | 0 <= e < |pairs| :: pairs[e].0 < n
    ensures fresh(offsets) && offsets.Length == n + 1
    ensures forall v | 0 <= v <= n :: offsets[v] == CountBelow(pairs, v)
  {
    offsets := new nat[n + 1](_ => 0);
    for i := 0 to |pairs|
      invariant offsets[0] == 0
      invariant forall v | 0 <= v < n :: offsets[v + 1] == CountAt(pairs[..i], v)
    {
      assert pairs[..i + 1][..i] == pairs[..i];
      offsets[pairs[i].0 + 1] := offsets[pairs[i].0 + 1] + 1;
    }
    assert pairs[..|pairs|] == pairs;
    CountBelowEnds(pairs, n);
    for vertex := 0 to n
      invariant forall v | 0 <= v <= vertex :: offsets[v] == CountBelow(pairs, v)
      invariant forall v | vertex <= v < n :: offsets[v + 1] == CountAt(pairs, v)
    {
      CountBelowNext(pairs, vertex);
      offsets[vertex + 1] := offsets[vertex + 1] + offsets[vertex];
    }
  }

  method BuildFiltered(events: seq<NormalizedEvent>, keep: NormalizedEvent -> bool) returns (g: PropagationGraph)
    ensures IsGraphOf(g, events, keep)
  {
    hide *;
    var unique := CollectAddresses(events, keep);
    var addresses := SortAddresses(unique);
    var listed := CollectPairs(events, keep, addresses);
    EdgeTotal();
    var pairs := SortDedup(EdgeLe(), listed);
    SortDedupStrict(EdgeLe(), listed);
    var offsets := PrefixSums(pairs, |addresses|);
    var edges := seq(|pairs|, e requires 0 <= e < |pairs| => pairs[e].1);
    g := PropagationGraph(addresses, offsets[..], edges);
    Assembled(events, keep, pairs, g);
  }

  lemma Assembled(events: seq<NormalizedEvent>, keep: NormalizedEvent -> bool, pairs: seq<Pair>, g: PropagationGraph)
    requires StrictlySorted(StrLe(), g.addresses)
    requires forall a :: a in g.addresses <==> IsEndpoint(events, keep, a)
    requires forall p | p in pairs :: p.0 < |g.addresses| && p.1 < |g.addresses|
    requires forall u: nat, v: nat | u < |g.addresses| && v < |g.addresses| ::
               (u, v) in pairs <==> IsArrow(events, keep, g.addresses[u], g.addresses[v])
    requires StrictlySorted(EdgeLe(), pairs)
    requires |g.offsets| == |g.addresses| + 1
    requires forall v | 0 <= v <= |g.addresses| :: g.offsets[v] == CountBelow(pairs, v)
    requires |g.edges| == |pairs| && forall e | 0 <= e < |pairs| :: g.edges[e] == pairs[e].1
    ensures IsGraphOf(g, events, keep)
  {
    hide IsEndpoint, IsArrow, StrLe, EdgeLe, StrictlySorted, CountBelow;
    hide PropagationGraph.Edge, PropagationGraph.AscendingTargets;
    assert forall e | 0 <= e < |pairs| :: pairs[e] in pairs;
    SlottedWellFormed(g.addresses, pairs, g.offsets, g.edges);
    SlottedAscending(g, pairs);
    forall u: nat, v: nat | u < g.Count() && v < g.Count()
      ensures g.Edge(u, v) <==> IsArrow(events, keep, g.addresses[u], g.addresses[v])
    {
      SlottedEdge(g, pairs, u, v);
    }
  }

  // ----- the graph is determined by the set of events -----

  lemma {:induction false} SameTargets(g: PropagationGraph, h: PropagationGraph, u: nat)
    requires g.WellFormed() && h.WellFormed() && g.AscendingTargets() && h.AscendingTargets()
    requires g.Count() == h.Count() && u < g.Count()
    requires forall v: nat | v < g.Count() :: g.Edge(u, v) <==> h.Edge(u, v)
    ensures g.edges[g.offsets[u]..g.offsets[u + 1]] == h.edges[h.offsets[u]..h.offsets[u + 1]]
  {
    assert g.offsets[u + 1] <= |g.edges| && h.offsets[u + 1] <= |h.edges|;
    var a, b := g.edges[g.offsets[u]..g.offsets[u + 1]], h.edges[h.offsets[u]..h.offsets[u + 1]];
    forall v: nat
      ensures v in a <==> v < g.Count() && g.Edge(u, v)
    {
      TargetListed(g, u, v);
    }
    forall v: nat
      ensures v in b <==> v < h.Count() && h.Edge(u, v)
    {
      TargetListed(h, u, v);
    }
    assert TotalOrder(NatLe());
    StrictlySortedUnique(NatLe(), a, b);
  }

  lemma TargetListed(g: PropagationGraph, u: nat, v: nat)
    requires g.WellFormed() && u < g.Count()
    ensures g.offsets[u] <= g.offsets[u + 1] <= |g.edges|
    ensures v in g.edges[g.offsets[u]..g.offsets[u + 1]] <==> v < g.Count() && g.Edge(u, v)
  {
    var a := g.edges[g.offsets[u]..g.offsets[u + 1]];
    if v in a {
      var i :| 0 <= i < |a| && a[i] == v;
      SlotInRange(g, u, g.offsets[u] + i);
    }
    if g.Edge(u, v) {
      var e: nat :| g.EdgeAt(u, e, v);
      assert a[e - g.offsets[u]] == v;
    }
  }

  lemma {:induction false} SameSlots(g: PropagationGraph, h: PropagationGraph, n: nat)
    requires g.WellFormed() && h.WellFormed() && g.AscendingTargets() && h.AscendingTargets()
    requires g.Count() == h.Count() && n <= g.Count()
    requires forall u: nat, v: nat | u < g.Count() && v < g.Count() :: g.Edge(u, v) <==> h.Edge(u, v)
    ensures g.offsets[..n + 1] == h.offsets[..n + 1]
    ensures g.offsets[n] <= |g.edges| && h.offsets[n] <= |h.edges|
    ensures g.edges[..g.offsets[n]] == h.edges[..h.offsets[n]]
  {
    if n > 0 {
      SameSlots(g, h, n - 1);
      SameTargets(g, h, n - 1);
      assert g.offsets[n] <= g.offsets[g.Count()] && h.offsets[n] <= h.offsets[h.Count()];
      var a, b := g.edges[g.offsets[n - 1]..g.offsets[n]], h.edges[h.offsets[n - 1]..h.offsets[n]];
      assert |a| == |b|;
      assert g.edges[..g.offsets[n]] == g.edges[..g.offsets[n - 1]] + a;
      assert h.edges[..h.offsets[n]] == h.edges[..h.offsets[n - 1]] + b;
      assert g.offsets[..n + 1] == g.offsets[..n] + [g.offsets[n]];
      assert h.offsets[..n + 1] == h.offsets[..n] + [h.offsets[n]];
      assert g.offsets[n - 1] == g.offsets[..n][n - 1] == h.offsets[..n][n - 1];
    }
  }

  /** Two event lists with the same elements, in any order and with any copies,
      give the same graph. */
  lemma GraphDependsOnEventSet(g: PropagationGraph, h: PropagationGraph, events: seq<NormalizedEvent>,
                               shuffled: seq<NormalizedEvent>, keep: NormalizedEvent -> bool)
    requires IsGraphOf(g, events, keep) && IsGraphOf(h, shuffled, keep)
    requires forall e :: e in events <==> e in shuffled
    ensures g == h
  {
    assert forall a :: IsEndpoint(events, keep, a) <==> IsEndpoint(shuffled, keep, a);
    assert forall a, b :: IsArrow(events, keep, a, b) <==> IsArrow(shuffled, keep, a, b);
    StrTotal();
    StrictlySortedUnique(StrLe(), g.addresses, h.addresses);
    SameSlots(g, h, g.Count());
    assert g.offsets == g.offsets[..g.Count() + 1] && h.offsets == h.offsets[..h.Count() + 1];
    assert g.edges == g.edges[..g.offsets[g.Count()]] && h.edges == h.edges[..h.offsets[h.Count()]];
  }
}
