/** Star behaviours: a malicious component that sends NFTs to three or more other
    components, told apart by what those components do next. The condensation
    this rests on has no cycles because components come out in reverse
    topological order.
 */
module StarBehavior {
  import opened Orders
  import opened Graph
  import opened Events
  import opened GraphBuild
  import opened LayeredPath

  datatype StarKind = SybilDistribution | FraudRevenue | Poisoning | NoStar

  /** `place` gives the component of every address of the graph. */
  ghost predicate Places(g: PropagationGraph, home: seq<nat>, place: map<string, nat>) {
    && |home| == |g.addresses|
    && (forall v | 0 <= v < |g.addresses| :: g.addresses[v] in place && place[g.addresses[v]] == home[v])
    && (forall a | a in place :: a in g.addresses)
  }

  /** The event carries an NFT out of component c. */
  predicate Leaves(e: NormalizedEvent, place: map<string, nat>, c: nat) {
    e.IsNftPropagation() && e.sender.Some? && e.receiver.Some?
    && e.sender.value in place && e.receiver.value in place
    && place[e.sender.value] == c && place[e.receiver.value] != c
  }

  /** The event carries an NFT from component c to another component d. */
  predicate Moves(e: NormalizedEvent, place: map<string, nat>, c: nat, d: nat) {
    Leaves(e, place, c) && place[e.receiver.value] == d
  }

  predicate Valuable(e: NormalizedEvent) {
    e.IsNftSale() || e.nativeAmount.GetOr(0) > 0 || e.usdMicros.GetOr(0) > 0
  }

  ghost predicate Sends(events: seq<NormalizedEvent>, place: map<string, nat>, c: nat, d: nat) {
    exists e :: e in events && Moves(e, place, c, d)
  }

  ghost predicate SendsValue(events: seq<NormalizedEvent>, place: map<string, nat>, c: nat) {
    exists e :: e in events && Leaves(e, place, c) && Valuable(e)
  }

  ghost predicate IsCondensation(events: seq<NormalizedEvent>, place: map<string, nat>, n: nat,
                                 targets: seq<set<nat>>, valuable: seq<bool>)
  {
    && |targets| == |valuable| == n
    && (forall c: nat, d: nat | c < n :: d in targets[c] <==> Sends(events, place, c, d))
    && (forall c: nat | c < n :: valuable[c] <==> SendsValue(events, place, c))
  }

  // ----- the condensation has no cycles -----

  /** Everything a component sends to was emitted before it. */
  lemma TargetsAreEarlier(g: PropagationGraph, events: seq<NormalizedEvent>, components: seq<seq<nat>>, home: seq<nat>,
                          place: map<string, nat>, c: nat, d: nat)
    requires IsGraphOf(g, events, Propagation()) && ComponentsOf(g, components, home) && Places(g, home, place)
    requires Sends(events, place, c, d)
    ensures d < c < |components|
  {
    hide StrLe, StrictlySorted, PropagationGraph.AscendingTargets;
    var e :| e in events && Moves(e, place, c, d);
    var a, b := e.sender.value, e.receiver.value;
    assert IsArrow(events, Propagation(), a, b);
    var u: nat :| u < g.Count() && g.addresses[u] == a;
    var v: nat :| v < g.Count() && g.addresses[v] == b;
    assert g.Edge(u, v);
    var slot: nat :| g.EdgeAt(u, slot, v);
    SlotInRange(g, u, slot);
  }

  ghost predicate Chain(targets: seq<set<nat>>, p: seq<nat>) {
    && (forall i | 0 <= i < |p| :: p[i] < |targets|)
    && (forall i, j | 0 <= i && j == i + 1 && j < |p| :: p[j] in targets[p[i]])
  }

  /** No chain of sends comes back to where it started. */
  lemma {:induction false} ChainsDescend(targets: seq<set<nat>>, p: seq<nat>)
    requires forall c: nat, d: nat | c < |targets| && d in targets[c] :: d < c
    requires Chain(targets, p) && |p| >= 2
    ensures p[|p| - 1] < p[0]
  {
    assert p[1] in targets[p[0]];
    if |p| > 2 {
      var q := p[1..];
      assert forall i, j | 0 <= i && j == i + 1 && j < |q| :: q[i] == p[i + 1] && q[j] == p[j + 1];
      forall i, j | 0 <= i && j == i + 1 && j < |q|
        ensures q[j] in targets[q[i]]
      {
        var k := i + 1;
        assert p[k + 1] in targets[p[k]];
      }
      ChainsDescend(targets, q);
    }
  }

  /** From every component some chain of sends ends at one that sends nothing. */
  lemma {:induction false} ChainToSink(targets: seq<set<nat>>, c: nat) returns (p: seq<nat>)
    requires forall c: nat, d: nat | c < |targets| && d in targets[c] :: d < c
    requires c < |targets|
    ensures p != [] && p[0] == c && Chain(targets, p) && targets[p[|p| - 1]] == {}
    decreases c
  {
    if targets[c] == {} {
      p := [c];
    } else {
      var d :| d in targets[c];
      var q := ChainToSink(targets, d);
      p := [c] + q;
    }
  }

  // ----- classification -----

  predicate MaliciousComponent(g: PropagationGraph, component: seq<nat>, malicious: set<string>)
    requires forall i | 0 <= i < |component| :: component[i] < |g.addresses|
  {
    exists i | 0 <= i < |component| :: g.addresses[component[i]] in malicious
  }

  predicate Forwards(targets: seq<set<nat>>, c: nat)
    requires c < |targets|
  {
    exists d | d in targets[c] :: d < |targets| && targets[d] != {}
  }

  function KindOf(targets: seq<set<nat>>, valuable: seq<bool>, malicious: bool, c: nat): StarKind
    requires c < |targets| == |valuable|
  {
    if !malicious || |targets[c]| < 3 then NoStar
    else if Forwards(targets, c) then SybilDistribution
    else if valuable[c] then FraudRevenue
    else Poisoning
  }

  // ----- the kinds, on the events -----

  /** The component sends to three others. */
  ghost predicate SendsToThree(events: seq<NormalizedEvent>, place: map<string, nat>, c: nat) {
    exists d: nat, e: nat, f: nat ::
      d < e < f && Sends(events, place, c, d) && Sends(events, place, c, e) && Sends(events, place, c, f)
  }

  /** One of those it sends to sends on. */
  ghost predicate SendsOn(events: seq<NormalizedEvent>, place: map<string, nat>, c: nat) {
    exists d: nat, e: nat :: Sends(events, place, c, d) && Sends(events, place, d, e)
  }

  /** What the kind of a component says about the events. */
  ghost predicate IsKind(events: seq<NormalizedEvent>, place: map<string, nat>, malicious: bool, c: nat,
                         kind: StarKind) {
    var star := malicious && SendsToThree(events, place, c);
    && (kind == SybilDistribution <==> star && SendsOn(events, place, c))
    && (kind == FraudRevenue <==> star && !SendsOn(events, place, c) && SendsValue(events, place, c))
    && (kind == Poisoning <==> star && !SendsOn(events, place, c) && !SendsValue(events, place, c))
  }

  lemma ThreeOf(s: set<nat>)
    ensures |s| >= 3 <==> exists d: nat, e: nat, f: nat :: d < e < f && d in s && e in s && f in s
  {
    if |s| >= 3 {
      var a :| a in s;
      var others := s - {a};
      assert |others| == |s| - 1;
      var b :| b in others;
      assert |others - {b}| == |s| - 2;
      var c :| c in others - {b};
      var low, high := if a < b then a else b, if a < b then b else a;
      if c < low {
        assert c < low < high;
      } else if c < high {
        assert low < c < high;
      } else {
        assert low < high < c;
      }
    }
    if d: nat, e: nat, f: nat :| d < e < f && d in s && e in s && f in s {
      assert {d, e, f} <= s;
      AtLeast({d, e, f}, s);
    }
  }

  lemma AtLeast<T>(a: set<T>, b: set<T>)
    requires a <= b
    ensures |a| <= |b|
  {
    assert b == a + (b - a);
  }

  /** The classification is what it should be on the events. */
  lemma KindByEvents(events: seq<NormalizedEvent>, place: map<string, nat>, n: nat, targets: seq<set<nat>>,
                     valuable: seq<bool>, malicious: bool, c: nat)
    requires IsCondensation(events, place, n, targets, valuable) && c < n
    requires forall d: nat | d in targets[c] :: d < n
    ensures IsKind(events, place, malicious, c, KindOf(targets, valuable, malicious, c))
  {
    hide Sends, SendsValue;
    ThreeOf(targets[c]);
    assert |targets[c]| >= 3 <==> SendsToThree(events, place, c);
    assert Forwards(targets, c) <==> SendsOn(events, place, c) by {
      ForwardsSendsOn(events, place, n, targets, valuable, c);
    }
  }

  lemma ForwardsSendsOn(events: seq<NormalizedEvent>, place: map<string, nat>, n: nat, targets: seq<set<nat>>,
                        valuable: seq<bool>, c: nat)
    requires IsCondensation(events, place, n, targets, valuable) && c < n
    requires forall d: nat | d in targets[c] :: d < n
    ensures Forwards(targets, c) <==> SendsOn(events, place, c)
  {
    hide Sends, SendsValue;
    if Forwards(targets, c) {
      var d: nat :| d in targets[c] && d < |targets| && targets[d] != {};
      var e: nat :| e in targets[d];
    }
    if SendsOn(events, place, c) {
      var d: nat, e: nat :| Sends(events, place, c, d) && Sends(events, place, d, e);
      assert d in targets[c] && e in targets[d];
    }
  }

  ghost function Counted(kinds: seq<StarKind>, kind: StarKind): set<nat> {
    set c | 0 <= c < |kinds| && kinds[c] == kind
  }

  // ----- the detector -----

  method PlaceAddresses(g: PropagationGraph, components: seq<seq<nat>>, malicious: set<string>, ghost home: seq<nat>)
    returns (componentByVertex: seq<nat>, maliciousComponent: seq<bool>)
    requires g.WellFormed() && ComponentsOf(g, components, home)
    requires forall c, i | 0 <= c < |components| && 0 <= i < |components[c]| :: components[c][i] < |g.addresses|
    ensures componentByVertex == home && |maliciousComponent| == |components|
    ensures forall c | 0 <= c < |components| ::
              maliciousComponent[c] <==> MaliciousComponent(g, components[c], malicious)
  {
    componentByVertex := seq(|g.addresses|, _ => 0);
    maliciousComponent := seq(|components|, _ => false);
    for c := 0 to |components|
      invariant |componentByVertex| == |g.addresses| && |maliciousComponent| == |components|
      invariant forall v | 0 <= v < |g.addresses| && home[v] < c :: componentByVertex[v] == home[v]
      invariant forall d | 0 <= d < c :: maliciousComponent[d] <==> MaliciousComponent(g, components[d], malicious)
      invariant forall d | c <= d < |components| :: !maliciousComponent[d]
    {
      var component := components[c];
      ghost var before := componentByVertex;
      ghost var flags := maliciousComponent;
      for i := 0 to |component|
        invariant |componentByVertex| == |g.addresses| && |maliciousComponent| == |components|
        invariant forall v | 0 <= v < |g.addresses| && home[v] < c :: componentByVertex[v] == home[v]
        invariant forall k | 0 <= k < i :: componentByVertex[component[k]] == c
        invariant maliciousComponent == flags[c := exists k | 0 <= k < i :: g.addresses[component[k]] in malicious]
      {
        var vertex := component[i];
        MemberHome(g, components, home, c, vertex);
        componentByVertex := componentByVertex[vertex := c];
        maliciousComponent := maliciousComponent[c := maliciousComponent[c] || g.addresses[vertex] in malicious];
      }
      forall v | 0 <= v < |g.addresses| && home[v] == c
        ensures componentByVertex[v] == c
      {
        assert v in components[home[v]];
      }
    }
    forall v | 0 <= v < |g.addresses|
      ensures componentByVertex[v] == home[v]
    {
      assert home[v] < |components|;
    }
  }

  /** Numbers the addresses, so an event's ends can be looked up. */
  method PlaceByAddress(g: PropagationGraph, componentByVertex: seq<nat>) returns (place: map<string, nat>)
    requires |componentByVertex| == |g.addresses| && NoDuplicates(g.addresses)
    ensures Places(g, componentByVertex, place)
  {
    place := map[];
    for v := 0 to |g.addresses|
      invariant forall w | 0 <= w < v :: g.addresses[w] in place && place[g.addresses[w]] == componentByVertex[w]
      invariant forall a | a in place :: a in g.addresses[..v]
    {
      assert g.addresses[..v + 1] == g.addresses[..v] + [g.addresses[v]];
      place := place[g.addresses[v] := componentByVertex[v]];
    }
  }

  method Condense(events: seq<NormalizedEvent>, place: map<string, nat>, n: nat)
    returns (targets: seq<set<nat>>, valuable: seq<bool>)
    requires forall a | a in place :: place[a] < n
    ensures IsCondensation(events, place, n, targets, valuable)
  {
    targets := seq(n, _ => {});
    valuable := seq(n, _ => false);
    for i := 0 to |events|
      invariant IsCondensation(events[..i], place, n, targets, valuable)
    {
      var e := events[i];
      if e.IsNftPropagation() && e.sender.Some? && e.receiver.Some?
         && e.sender.value in place && e.receiver.value in place {
        var left, right := place[e.sender.value], place[e.receiver.value];
        if left != right {
          targets := targets[left := targets[left] + {right}];
          valuable := valuable[left := valuable[left] || e.IsNftSale() || e.nativeAmount.GetOr(0) > 0
                                       || e.usdMicros.GetOr(0) > 0];
        }
      }
      SendsNext(events, place, i);
    }
    assert events[..|events|] == events;
  }

  lemma SendsNext(events: seq<NormalizedEvent>, place: map<string, nat>, i: nat)
    requires i < |events|
    ensures forall c: nat, d: nat ::
              Sends(events[..i + 1], place, c, d) <==> Sends(events[..i], place, c, d) || Moves(events[i], place, c, d)
    ensures forall c: nat ::
              SendsValue(events[..i + 1], place, c) <==>
                SendsValue(events[..i], place, c) || (Leaves(events[i], place, c) && Valuable(events[i]))
  {
    assert forall e :: e in events[..i + 1] <==> e in events[..i] || e == events[i] by {
      assert events[..i + 1] == events[..i] + [events[i]];
    }
  }

  method StarBehaviors(events: seq<NormalizedEvent>, g: PropagationGraph, components: seq<seq<nat>>,
                       malicious: set<string>)
    returns (sybil: nat, fraud: nat, poisoning: nat, ghost place: map<string, nat>, ghost home: seq<nat>,
             targets: seq<set<nat>>, valuable: seq<bool>, kinds: seq<StarKind>)
    requires IsGraphOf(g, events, Propagation()) && SccDecomposition(g, components)
    ensures ComponentsOf(g, components, home) && Places(g, home, place)
    ensures IsCondensation(events, place, |components|, targets, valuable)
    ensures forall c: nat, d: nat | c < |components| && d in targets[c] :: d < c
    ensures forall c, i | 0 <= c < |components| && 0 <= i < |components[c]| :: components[c][i] < |g.addresses|
    ensures |kinds| == |components|
    ensures forall c | 0 <= c < |components| ::
              kinds[c] == KindOf(targets, valuable, MaliciousComponent(g, components[c], malicious), c)
              && IsKind(events, place, MaliciousComponent(g, components[c], malicious), c, kinds[c])
    ensures sybil == |Counted(kinds, SybilDistribution)|
    ensures fraud == |Counted(kinds, FraudRevenue)|
    ensures poisoning == |Counted(kinds, Poisoning)|
  {
    home :| ComponentsOf(g, components, home);
    forall c: nat, i: nat | c < |components| && i < |components[c]|
      ensures components[c][i] < |g.addresses|
    {
      MemberHome(g, components, home, c, components[c][i]);
    }
    var componentByVertex, maliciousComponent := PlaceAddresses(g, components, malicious, home);
    var placed := PlaceByAddress(g, componentByVertex);
    place := placed;
    targets, valuable := Condense(events, placed, |components|);
    forall c: nat, d: nat | c < |components| && d in targets[c]
      ensures d < c
    {
      TargetsAreEarlier(g, events, components, home, placed, c, d);
    }
    kinds, sybil, fraud, poisoning := CountStars(targets, valuable, maliciousComponent);
    hide IsKind, KindOf, IsCondensation, ComponentsOf, Places, MaliciousComponent;
    forall c | 0 <= c < |components|
      ensures IsKind(events, place, maliciousComponent[c], c, kinds[c])
    {
      KindByEvents(events, place, |components|, targets, valuable, maliciousComponent[c], c);
    }
  }

  method CountStars(targets: seq<set<nat>>, valuable: seq<bool>, maliciousComponent: seq<bool>)
    returns (kinds: seq<StarKind>, sybil: nat, fraud: nat, poisoning: nat)
    requires |targets| == |valuable| == |maliciousComponent|
    ensures |kinds| == |targets|
    ensures forall c | 0 <= c < |targets| :: kinds[c] == KindOf(targets, valuable, maliciousComponent[c], c)
    ensures sybil == |Counted(kinds, SybilDistribution)|
    ensures fraud == |Counted(kinds, FraudRevenue)|
    ensures poisoning == |Counted(kinds, Poisoning)|
  {
    kinds, sybil, fraud, poisoning := [], 0, 0, 0;
    for c := 0 to |targets|
      invariant |kinds| == c
      invariant forall d | 0 <= d < c :: kinds[d] == KindOf(targets, valuable, maliciousComponent[d], d)
      invariant sybil == |Counted(kinds, SybilDistribution)|
      invariant fraud == |Counted(kinds, FraudRevenue)|
      invariant poisoning == |Counted(kinds, Poisoning)|
    {
      var kind := NoStar;
      if maliciousComponent[c] && |targets[c]| >= 3 {
        if exists d | d in targets[c] :: d < |targets| && targets[d] != {} {
          kind := SybilDistribution;
        } else if valuable[c] {
          kind := FraudRevenue;
        } else {
          kind := Poisoning;
        }
      }
      CountNext(kinds, kind);
      kinds := kinds + [kind];
      match kind {
        case SybilDistribution => sybil := sybil + 1;
        case FraudRevenue => fraud := fraud + 1;
        case Poisoning => poisoning := poisoning + 1;
        case NoStar =>
      }
    }
  }

  lemma CountNext(kinds: seq<StarKind>, kind: StarKind)
    ensures forall k :: |Counted(kinds + [kind], k)| == |Counted(kinds, k)| + if k == kind then 1 else 0
  {
    forall k
      ensures |Counted(kinds + [kind], k)| == |Counted(kinds, k)| + if k == kind then 1 else 0
    {
      if k == kind {
        assert Counted(kinds + [kind], k) == Counted(kinds, k) + {|kinds|};
      } else {
        assert Counted(kinds + [kind], k) == Counted(kinds, k);
      }
    }
  }
}
