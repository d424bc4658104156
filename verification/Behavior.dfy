/** The behaviour facts of a candidate as a whole. The form that only counts and the
    form that also builds instances come to the same facts.
 */
module Behavior {
  import opened Orders
  import opened Graph
  import opened Events
  import opened GraphBuild
  import opened Tarjan
  import opened LayeredPath
  import opened Attribution
  import opened WashCycles
  import opened StarBehavior

  const LAYERED_ADDRESSES: nat := 3

  datatype BehaviorFacts = BehaviorFacts(
    washCycles: nat,
    pumpAndExit: nat,
    sybilDistribution: nat,
    fraudRevenue: nat,
    poisoning: nat,
    layeredTransfer: nat,
    inventoryConcentration: nat)

  function Malicious(roles: map<string, AddressRole>): set<string> {
    set a | a in roles && (roles[a] == SuspectedOperator || roles[a] == SuspectedColluder)
  }

  function Honest(roles: map<string, AddressRole>): set<string> {
    set a | a in roles && (roles[a] == LikelyVictim || roles[a] == CorruptedVictim)
  }

  // ----- inventory concentration -----

  ghost function Senders(g: PropagationGraph, v: nat, n: nat): set<nat>
    requires g.WellFormed()
  {
    set u: nat | u < n && u < g.Count() && g.Edge(u, v)
  }

  ghost function Receivers(g: PropagationGraph, u: nat): set<nat>
    requires g.WellFormed()
  {
    set v: nat | v < g.Count() && g.Edge(u, v)
  }

  /** A malicious address that takes NFTs from at least three others, or takes some and
      passes NFTs to at least three. */
  ghost predicate Concentrates(g: PropagationGraph, malicious: set<string>, v: nat)
    requires g.WellFormed()
  {
    v < g.Count() && g.addresses[v] in malicious
    && (|Senders(g, v, g.Count())| >= 3 || (Senders(g, v, g.Count()) != {} && |Receivers(g, v)| >= 3))
  }

  ghost function Concentrated(g: PropagationGraph, malicious: set<string>, n: nat): set<nat>
    requires g.WellFormed()
  {
    set v: nat | v < n && Concentrates(g, malicious, v)
  }

  /** How often v occurs among the first n edge slots. */
  function Occurrences(edges: seq<nat>, v: nat, n: nat): nat
    requires n <= |edges|
  {
    if n == 0 then 0 else Occurrences(edges, v, n - 1) + if edges[n - 1] == v then 1 else 0
  }

  /** In the slots of one vertex a target occurs once or not at all. */
  lemma {:induction false} OccursOnce(g: PropagationGraph, u: nat, v: nat, k: nat)
    requires g.WellFormed() && g.AscendingTargets() && u < g.Count()
    requires g.offsets[u] <= k <= g.offsets[u + 1] <= |g.edges|
    ensures Occurrences(g.edges, v, k) == Occurrences(g.edges, v, g.offsets[u])
              + if exists e :: g.offsets[u] <= e < k && g.edges[e] == v then 1 else 0
    decreases k
  {
    if k > g.offsets[u] {
      OccursOnce(g, u, v, k - 1);
      assert forall e | g.offsets[u] <= e < k - 1 :: g.edges[e] < g.edges[k - 1];
    }
  }

  lemma SendersNext(g: PropagationGraph, v: nat, u: nat)
    requires g.WellFormed() && u < g.Count()
    ensures |Senders(g, v, u + 1)| == |Senders(g, v, u)| + if g.Edge(u, v) then 1 else 0
  {
    hide PropagationGraph.Edge, PropagationGraph.WellFormed;
    if g.Edge(u, v) {
      assert Senders(g, v, u + 1) == Senders(g, v, u) + {u};
    } else {
      assert Senders(g, v, u + 1) == Senders(g, v, u);
    }
  }

  /** Slots that point at v and vertices that send to v are equally many. */
  lemma {:induction false} InDegreeIsSenders(g: PropagationGraph, v: nat, n: nat)
    requires g.WellFormed() && g.AscendingTargets() && n <= g.Count() && g.offsets[n] <= |g.edges|
    ensures Occurrences(g.edges, v, g.offsets[n]) == |Senders(g, v, n)|
  {
    hide PropagationGraph.Edge, PropagationGraph.AscendingTargets;
    if n > 0 {
      var u := n - 1;
      assert g.offsets[u] <= g.offsets[n];
      InDegreeIsSenders(g, v, u);
      OccursOnce(g, u, v, g.offsets[n]);
      EdgeInSlots(g, u, v);
      SendersNext(g, v, u);
    } else {
      assert Senders(g, v, 0) == {};
    }
  }

  lemma EdgeInSlots(g: PropagationGraph, u: nat, v: nat)
    requires g.WellFormed() && u < g.Count()
    ensures g.offsets[u + 1] <= |g.edges|
    ensures g.Edge(u, v) <==> exists e :: g.offsets[u] <= e < g.offsets[u + 1] && g.edges[e] == v
  {
    assert g.offsets[u + 1] <= g.offsets[g.Count()];
    if e: nat :| g.offsets[u] <= e < g.offsets[u + 1] && g.edges[e] == v {
      assert g.EdgeAt(u, e, v);
    }
    if g.Edge(u, v) {
      var e: nat :| g.EdgeAt(u, e, v);
    }
  }

  ghost function Elements(s: seq<nat>): set<nat> { set x | x in s }

  lemma ElementsNext(s: seq<nat>, x: nat)
    requires x !in s
    ensures |Elements(s + [x])| == |Elements(s)| + 1
  {
    assert Elements(s + [x]) == Elements(s) + {x};
  }

  lemma {:induction false} AscendingCount(s: seq<nat>)
    requires Ascending(s)
    ensures |Elements(s)| == |s|
  {
    if s != [] {
      var init, last := s[..|s| - 1], s[|s| - 1];
      AscendingCount(init);
      ElementsNext(init, last);
      assert s == init + [last];
    }
  }

  /** The slots of a vertex and its receivers are equally many. */
  lemma OutDegreeIsReceivers(g: PropagationGraph, u: nat)
    requires g.WellFormed() && g.AscendingTargets() && u < g.Count()
    ensures g.offsets[u] <= g.offsets[u + 1] && g.offsets[u + 1] - g.offsets[u] == |Receivers(g, u)|
  {
    assert g.offsets[u] <= g.offsets[u + 1] <= g.offsets[g.Count()];
    var s := g.edges[g.offsets[u]..g.offsets[u + 1]];
    AscendingCount(s);
    forall v
      ensures v in s <==> v in Receivers(g, u)
    {
      TargetListed(g, u, v);
    }
    assert Elements(s) == Receivers(g, u);
  }

  lemma ConcentratedNext(g: PropagationGraph, malicious: set<string>, v: nat)
    requires g.WellFormed()
    ensures |Concentrated(g, malicious, v + 1)|
            == |Concentrated(g, malicious, v)| + if Concentrates(g, malicious, v) then 1 else 0
  {
    hide Concentrates;
    if Concentrates(g, malicious, v) {
      assert Concentrated(g, malicious, v + 1) == Concentrated(g, malicious, v) + {v};
    } else {
      assert Concentrated(g, malicious, v + 1) == Concentrated(g, malicious, v);
    }
  }

  /** The test on degrees is the test on senders and receivers. */
  lemma DegreesDecide(g: PropagationGraph, malicious: set<string>, v: nat)
    requires g.WellFormed() && g.AscendingTargets() && v < g.Count()
    ensures g.offsets[v] <= g.offsets[v + 1]
    ensures var degree := Occurrences(g.edges, v, |g.edges|);
      Concentrates(g, malicious, v) <==>
        g.addresses[v] in malicious && (degree >= 3 || (degree > 0 && g.offsets[v + 1] - g.offsets[v] >= 3))
  {
    InDegreeIsSenders(g, v, g.Count());
    OutDegreeIsReceivers(g, v);
    hide Senders, Receivers, Occurrences, PropagationGraph.AscendingTargets;
  }

  method CountInDegrees(edges: seq<nat>, n: nat) returns (indegree: array<nat>)
    requires forall e | 0 <= e < |edges| :: edges[e] < n
    ensures fresh(indegree) && indegree.Length == n
    ensures forall v | 0 <= v < n :: indegree[v] == Occurrences(edges, v, |edges|)
  {
    indegree := new nat[n](_ => 0);
    for e := 0 to |edges|
      invariant forall v | 0 <= v < n :: indegree[v] == Occurrences(edges, v, e)
    {
      indegree[edges[e]] := indegree[edges[e]] + 1;
    }
  }

  lemma NoneConcentrated(g: PropagationGraph, malicious: set<string>)
    requires g.WellFormed()
    ensures |Concentrated(g, malicious, 0)| == 0
  {
    assert Concentrated(g, malicious, 0) == {};
  }

  method CountInventory(g: PropagationGraph, malicious: set<string>) returns (count: nat)
    requires g.WellFormed() && g.AscendingTargets()
    ensures count == |Concentrated(g, malicious, g.Count())|
  {
    hide Concentrated, Concentrates, Occurrences, PropagationGraph.AscendingTargets;
    NoneConcentrated(g, malicious);
    var indegree := CountInDegrees(g.edges, g.Count());
    count := 0;
    for v := 0 to g.Count()
      invariant count == |Concentrated(g, malicious, v)|
      invariant forall w | 0 <= w < g.Count() :: indegree[w] == Occurrences(g.edges, w, |g.edges|)
    {
      DegreesDecide(g, malicious, v);
      ConcentratedNext(g, malicious, v);
      if g.addresses[v] in malicious
         && (indegree[v] >= 3 || (indegree[v] > 0 && g.offsets[v + 1] - g.offsets[v] >= 3)) {
        count := count + 1;
      }
    }
  }

  // ----- the facts -----

  ghost predicate IsWash(events: seq<NormalizedEvent>, malicious: set<string>, honest: set<string>,
                         rounded: (int, nat, int, nat) -> bool, washCycles: nat, pumpAndExit: nat)
  {
    exists cycles :: AreCycles(events, malicious, cycles) && washCycles == |cycles|
                     && pumpAndExit == SumBy(Pumps(events, honest, rounded), cycles)
  }

  ghost predicate AreStars(events: seq<NormalizedEvent>, g: PropagationGraph, components: seq<seq<nat>>,
                           malicious: set<string>, place: map<string, nat>, home: seq<nat>,
                           targets: seq<set<nat>>, valuable: seq<bool>, kinds: seq<StarKind>)
    requires g.WellFormed()
  {
    && ComponentsOf(g, components, home) && Places(g, home, place)
    && IsCondensation(events, place, |components|, targets, valuable)
    && (forall c, i | 0 <= c < |components| && 0 <= i < |components[c]| :: components[c][i] < |g.addresses|)
    && |kinds| == |components|
    && forall c | 0 <= c < |components| ::
         kinds[c] == KindOf(targets, valuable, MaliciousComponent(g, components[c], malicious), c)
  }

  ghost predicate IsStarCount(events: seq<NormalizedEvent>, g: PropagationGraph, components: seq<seq<nat>>,
                              malicious: set<string>, f: BehaviorFacts)
    requires g.WellFormed()
  {
    exists place, home, targets, valuable, kinds ::
      && AreStars(events, g, components, malicious, place, home, targets, valuable, kinds)
      && f.sybilDistribution == |Counted(kinds, SybilDistribution)|
      && f.fraudRevenue == |Counted(kinds, FraudRevenue)|
      && f.poisoning == |Counted(kinds, Poisoning)|
  }

  ghost predicate HasLayered(g: PropagationGraph)
    requires g.WellFormed()
  {
    exists q :: SimplePath(g, q) && |q| == 3
  }

  /** What the facts mean, whichever form computes them. */
  ghost predicate AreFacts(events: seq<NormalizedEvent>, g: PropagationGraph, roles: map<string, AddressRole>,
                           components: seq<seq<nat>>, rounded: (int, nat, int, nat) -> bool, f: BehaviorFacts)
    requires g.WellFormed()
  {
    && IsWash(events, Malicious(roles), Honest(roles), rounded, f.washCycles, f.pumpAndExit)
    && IsStarCount(events, g, components, Malicious(roles), f)
    && f.layeredTransfer == (if HasLayered(g) then 1 else 0)
    && f.inventoryConcentration == |Concentrated(g, Malicious(roles), g.Count())|
  }

  /** Both forms: `collect` builds the instances too. */
  method AnalyzeBehaviors(events: seq<NormalizedEvent>, g: PropagationGraph, roles: map<string, AddressRole>,
                          components: seq<seq<nat>>, rounded: (int, nat, int, nat) -> bool, collect: bool)
    returns (f: BehaviorFacts, layered: seq<LayeredInstance>)
    requires IsGraphOf(g, events, Propagation()) && SccDecomposition(g, components)
    ensures AreFacts(events, g, roles, components, rounded, f)
    ensures |layered| == if collect then f.layeredTransfer else 0
    ensures forall instance | instance in layered :: ShowsPath(events, instance)
  {
    hide AreCycles, SumBy, Pumps, IsCondensation, ComponentsOf, Places, KindOf, Counted, MaliciousComponent;
    hide Concentrated;
    var malicious := set a | a in roles && roles[a] in {SuspectedOperator, SuspectedColluder};
    var honest := set a | a in roles && roles[a] in {LikelyVictim, CorruptedVictim};
    assert malicious == Malicious(roles) && honest == Honest(roles);
    var cycles, values, pump := DetectWash(events, malicious, honest, rounded, collect);
    assert IsWash(events, malicious, honest, rounded, |values|, pump);
    var sybil, fraud, poisoning, place, home, targets, valuable, kinds :=
      StarBehaviors(events, g, components, malicious);
    assert AreStars(events, g, components, malicious, place, home, targets, valuable, kinds);
    var count := 0;
    layered := [];
    if collect {
      layered := LayeredPaths(events, g, LAYERED_ADDRESSES);
      count := |layered|;
    } else {
      count := CountLayeredPaths(g, LAYERED_ADDRESSES);
    }
    var inventory := CountInventory(g, malicious);
    f := BehaviorFacts(|values|, pump, sybil, fraud, poisoning, count, inventory);
    assert IsStarCount(events, g, components, malicious, f);
  }

  /** From the evidence alone: graph, components, roles and facts as the analysis chains
      them. */
  method AnalyzeCandidate(events: seq<NormalizedEvent>, controllers: seq<string>, holders: seq<Holder>,
                          rounded: (int, nat, int, nat) -> bool, collect: bool)
    returns (f: BehaviorFacts, g: PropagationGraph, components: seq<seq<nat>>, roles: map<string, AddressRole>)
    ensures IsGraphOf(g, events, Propagation()) && SccDecomposition(g, components)
    ensures forall a :: a in roles <==> Known(events, controllers, holders, a)
    ensures forall a | a in roles :: roles[a] == RoleOf(events, controllers, holders, a)
    ensures AreFacts(events, g, roles, components, rounded, f)
  {
    hide SccDecomposition, AreFacts, Known, BaseRole, TradesWithOperator;
    g := BuildFiltered(events, Propagation());
    components := StronglyConnectedComponents(g);
    roles := AttributeAddresses(events, controllers, holders);
    var facts, _ := AnalyzeBehaviors(events, g, roles, components, rounded, collect);
    f := facts;
  }

  /** The role the events, controllers and holders give an address. */
  ghost function RoleOf(events: seq<NormalizedEvent>, controllers: seq<string>, holders: seq<Holder>, a: string)
    : AddressRole
  {
    var base := BaseRole(events, controllers, holders, a);
    if base == Neutral && TradesWithOperator(events, controllers, a) then SuspectedColluder else base
  }

  // ----- the forms agree -----

  lemma WashUnique(events: seq<NormalizedEvent>, malicious: set<string>, honest: set<string>,
                   rounded: (int, nat, int, nat) -> bool, m: nat, p: nat, n: nat, q: nat)
    requires IsWash(events, malicious, honest, rounded, m, p) && IsWash(events, malicious, honest, rounded, n, q)
    ensures m == n && p == q
  {
    hide AreCycles, Pumps;
    var x :| AreCycles(events, malicious, x) && m == |x| && p == SumBy(Pumps(events, honest, rounded), x);
    var y :| AreCycles(events, malicious, y) && n == |y| && q == SumBy(Pumps(events, honest, rounded), y);
    CyclesUnique(events, malicious, x, y);
    SameMultisetSameElements(x, y);
    SumByPermutation(Pumps(events, honest, rounded), x, y);
  }

  /** The pump count of the facts is the number of wash cycles that sell out at a higher
      average price than they traded at inside. */
  lemma PumpFact(events: seq<NormalizedEvent>, g: PropagationGraph, roles: map<string, AddressRole>,
                 components: seq<seq<nat>>, rounded: (int, nat, int, nat) -> bool, f: BehaviorFacts,
                 cycles: seq<set<string>>)
    requires g.WellFormed() && AreFacts(events, g, roles, components, rounded, f)
    requires AreCycles(events, Malicious(roles), cycles)
    requires forall c | 0 <= c < |cycles| :: PricesFit(events, Honest(roles), cycles[c])
    ensures f.washCycles == |cycles| && f.pumpAndExit == |PumpCycles(events, Honest(roles), cycles)|
  {
    hide AreCycles, Pumps, PricesFit, PumpCycles;
    PumpCount(events, Honest(roles), rounded, cycles);
    assert IsWash(events, Malicious(roles), Honest(roles), rounded, |cycles|,
                  |PumpCycles(events, Honest(roles), cycles)|);
    WashUnique(events, Malicious(roles), Honest(roles), rounded, f.washCycles, f.pumpAndExit,
               |cycles|, |PumpCycles(events, Honest(roles), cycles)|);
  }

  lemma HomeUnique(g: PropagationGraph, components: seq<seq<nat>>, x: seq<nat>, y: seq<nat>)
    requires g.WellFormed() && ComponentsOf(g, components, x) && ComponentsOf(g, components, y)
    ensures x == y
  {
    forall v | 0 <= v < g.Count()
      ensures x[v] == y[v]
    {
      assert v in components[x[v]];
    }
  }

  lemma PlaceUnique(g: PropagationGraph, home: seq<nat>, x: map<string, nat>, y: map<string, nat>)
    requires Places(g, home, x) && Places(g, home, y)
    ensures x == y
  {
    forall a
      ensures a in x <==> a in y
      ensures a in x ==> x[a] == y[a]
    {
      if a in g.addresses {
        var v :| 0 <= v < |g.addresses| && g.addresses[v] == a;
      }
    }
  }

  lemma CondensationUnique(events: seq<NormalizedEvent>, place: map<string, nat>, n: nat,
                           s: seq<set<nat>>, v: seq<bool>, t: seq<set<nat>>, w: seq<bool>)
    requires IsCondensation(events, place, n, s, v) && IsCondensation(events, place, n, t, w)
    ensures s == t && v == w
  {
    hide Sends, SendsValue;
    forall c: nat | c < n
      ensures s[c] == t[c] && v[c] == w[c]
    {
      forall d: nat
        ensures d in s[c] <==> d in t[c]
      {
        assert d in s[c] <==> Sends(events, place, c, d);
      }
    }
  }

  lemma StarsUnique(events: seq<NormalizedEvent>, g: PropagationGraph, components: seq<seq<nat>>,
                    malicious: set<string>, f: BehaviorFacts, h: BehaviorFacts)
    requires g.WellFormed()
    requires IsStarCount(events, g, components, malicious, f) && IsStarCount(events, g, components, malicious, h)
    ensures f.sybilDistribution == h.sybilDistribution && f.fraudRevenue == h.fraudRevenue && f.poisoning == h.poisoning
  {
    hide ComponentsOf, Places, IsCondensation, KindOf, MaliciousComponent, Counted;
    var p, x, t, v, k :| AreStars(events, g, components, malicious, p, x, t, v, k)
      && f.sybilDistribution == |Counted(k, SybilDistribution)| && f.fraudRevenue == |Counted(k, FraudRevenue)|
      && f.poisoning == |Counted(k, Poisoning)|;
    var q, y, s, w, l :| AreStars(events, g, components, malicious, q, y, s, w, l)
      && h.sybilDistribution == |Counted(l, SybilDistribution)| && h.fraudRevenue == |Counted(l, FraudRevenue)|
      && h.poisoning == |Counted(l, Poisoning)|;
    HomeUnique(g, components, x, y);
    PlaceUnique(g, x, p, q);
    CondensationUnique(events, p, |components|, t, v, s, w);
    assert k == l;
  }

  /** The facts are determined by events, graph, roles and components: counting and
      building instances, and any two runs of either, agree in all seven numbers. */
  lemma FormsAgree(events: seq<NormalizedEvent>, g: PropagationGraph, roles: map<string, AddressRole>,
                   components: seq<seq<nat>>, rounded: (int, nat, int, nat) -> bool, f: BehaviorFacts, h: BehaviorFacts)
    requires g.WellFormed()
    requires AreFacts(events, g, roles, components, rounded, f) && AreFacts(events, g, roles, components, rounded, h)
    ensures f == h
  {
    hide IsWash, IsStarCount, HasLayered, Concentrated;
    WashUnique(events, Malicious(roles), Honest(roles), rounded,
               f.washCycles, f.pumpAndExit, h.washCycles, h.pumpAndExit);
    StarsUnique(events, g, components, Malicious(roles), f, h);
  }
}
