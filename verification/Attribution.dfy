/** Address roles: who operated, who paid, who passed on, and which neutral
    addresses trade in circles with an operator.
 */
module Attribution {
  import opened Orders
  import opened Graph
  import opened Events
  import opened GraphBuild
  import opened Tarjan

  type Holder = (NftKey, string)

  // ----- what each kind of evidence means -----

  predicate OperatorEvent(e: NormalizedEvent, a: string) {
    match e.kind
    case Deploy => e.sender == Some(a)
    case Funding => e.receiver == Some(a)
    case Withdrawal => e.sender == Some(a) || e.receiver == Some(a)
    case Cashout => e.sender == Some(a) || e.receiver == Some(a)
    case _ => false
  }

  predicate Paid(e: NormalizedEvent) {
    (e.kind == Mint || e.IsNftSale())
    && (e.nativeAmount.GetOr(0) > 0 || e.usdMicros.GetOr(0) > 0)
  }

  predicate BuyerEvent(e: NormalizedEvent, a: string) {
    Paid(e) && (e.paymentPayer == Some(a) || e.receiver == Some(a))
  }

  predicate PropagatorEvent(e: NormalizedEvent, a: string) {
    (e.IsNftSale() || e.kind == Transfer) && e.sender == Some(a)
  }

  predicate Names(e: NormalizedEvent, a: string) {
    e.sender == Some(a) || e.receiver == Some(a) || e.feePayer == Some(a)
    || e.paymentPayer == Some(a) || e.paymentRecipient == Some(a)
  }

  ghost predicate Operator(events: seq<NormalizedEvent>, controllers: seq<string>, a: string) {
    a in controllers || exists e :: e in events && OperatorEvent(e, a)
  }

  ghost predicate Buyer(events: seq<NormalizedEvent>, a: string) {
    exists e :: e in events && BuyerEvent(e, a)
  }

  ghost predicate Propagator(events: seq<NormalizedEvent>, a: string) {
    exists e :: e in events && PropagatorEvent(e, a)
  }

  ghost predicate Holds(holders: seq<Holder>, a: string) {
    exists h :: h in holders && h.1 == a
  }

  ghost predicate Known(events: seq<NormalizedEvent>, controllers: seq<string>, holders: seq<Holder>, a: string) {
    a in controllers || Holds(holders, a) || exists e :: e in events && Names(e, a)
  }

  /** The role before the trading circles are looked at. */
  ghost function BaseRole(events: seq<NormalizedEvent>, controllers: seq<string>, holders: seq<Holder>, a: string)
    : AddressRole
  {
    if Operator(events, controllers, a) then SuspectedOperator
    else if Buyer(events, a) && Propagator(events, a) then CorruptedVictim
    else if Buyer(events, a) && Holds(holders, a) then LikelyVictim
    else Neutral
  }

  // ----- reachability between addresses -----

  ghost predicate ClosedAddresses(events: seq<NormalizedEvent>, keep: NormalizedEvent -> bool, s: iset<string>) {
    forall a, b | a in s && IsArrow(events, keep, a, b) :: b in s
  }

  /** b lies in every set of addresses around a that no kept event leaves. */
  ghost predicate AddressReach(events: seq<NormalizedEvent>, keep: NormalizedEvent -> bool, a: string, b: string) {
    forall s: iset<string> | ClosedAddresses(events, keep, s) && a in s :: b in s
  }

  ghost predicate MutualAddresses(events: seq<NormalizedEvent>, keep: NormalizedEvent -> bool, a: string, b: string) {
    AddressReach(events, keep, a, b) && AddressReach(events, keep, b, a)
  }

  lemma ReachToAddresses(g: PropagationGraph, events: seq<NormalizedEvent>, keep: NormalizedEvent -> bool, u: nat,
                         v: nat)
    requires IsGraphOf(g, events, keep) && u < g.Count() && v < g.Count()
    requires Reach(g, u, v)
    ensures AddressReach(events, keep, g.addresses[u], g.addresses[v])
  {
    forall s: iset<string> | ClosedAddresses(events, keep, s) && g.addresses[u] in s
      ensures g.addresses[v] in s
    {
      var t := iset w: nat | w < g.Count() && g.addresses[w] in s;
      forall w, e | 0 <= w < g.Count() && w in t && g.offsets[w] <= e < g.offsets[w + 1] && e < |g.edges|
        ensures g.edges[e] in t
      {
        SlotInRange(g, w, e);
        assert IsArrow(events, keep, g.addresses[w], g.addresses[g.edges[e]]);
      }
      assert Closed(g, t);
    }
  }

  lemma AddressesToReach(g: PropagationGraph, events: seq<NormalizedEvent>, keep: NormalizedEvent -> bool, u: nat,
                         v: nat)
    requires IsGraphOf(g, events, keep) && u < g.Count() && v < g.Count()
    requires AddressReach(events, keep, g.addresses[u], g.addresses[v])
    ensures Reach(g, u, v)
  {
    forall t: iset<nat> | Closed(g, t) && u in t
      ensures v in t
    {
      var s := iset w: nat | w < g.Count() && w in t :: g.addresses[w];
      forall a, b | a in s && IsArrow(events, keep, a, b)
        ensures b in s
      {
        var w: nat :| w < g.Count() && w in t && g.addresses[w] == a;
        assert IsEndpoint(events, keep, b);
        var x: nat :| x < g.Count() && g.addresses[x] == b;
        assert g.Edge(w, x);
        var e: nat :| g.EdgeAt(w, e, x);
        SlotInRange(g, w, e);
      }
      assert ClosedAddresses(events, keep, s);
      assert g.addresses[v] in s;
      var w: nat :| w < g.Count() && w in t && g.addresses[w] == g.addresses[v];
      assert w == v;
    }
  }

  /** Two addresses on a common circle are both vertices of the graph. */
  lemma MutualAreVertices(g: PropagationGraph, events: seq<NormalizedEvent>, keep: NormalizedEvent -> bool, a: string,
                          b: string)
    requires IsGraphOf(g, events, keep) && a != b && AddressReach(events, keep, a, b)
    ensures a in g.addresses
  {
    var s := iset{a};
    assert forall y :: IsArrow(events, keep, a, y) ==> IsEndpoint(events, keep, a);
    assert a !in g.addresses ==> ClosedAddresses(events, keep, s);
  }

  // ----- collecting the evidence -----

  function OptionSet(a: Option<string>): (r: set<string>)
    ensures forall x :: x in r <==> a == Some(x)
  {
    match a
    case Some(x) => {x}
    case None => {}
  }

  method CollectEvidence(events: seq<NormalizedEvent>, controllers: seq<string>)
    returns (operators: set<string>, buyers: set<string>, propagators: set<string>)
    ensures forall a :: a in operators <==> Operator(events, controllers, a)
    ensures forall a :: a in buyers <==> Buyer(events, a)
    ensures forall a :: a in propagators <==> Propagator(events, a)
  {
    operators, buyers, propagators := set a | a in controllers, {}, {};
    for i := 0 to |events|
      invariant forall a :: a in operators <==> Operator(events[..i], controllers, a)
      invariant forall a :: a in buyers <==> Buyer(events[..i], a)
      invariant forall a :: a in propagators <==> Propagator(events[..i], a)
    {
      var e := events[i];
      match e.kind {
        case Deploy => operators := operators + OptionSet(e.sender);
        case Funding => operators := operators + OptionSet(e.receiver);
        case Withdrawal => operators := operators + OptionSet(e.sender) + OptionSet(e.receiver);
        case Cashout => operators := operators + OptionSet(e.sender) + OptionSet(e.receiver);
        case _ =>
      }
      if (e.kind == Mint || e.IsNftSale()) && (e.nativeAmount.GetOr(0) > 0 || e.usdMicros.GetOr(0) > 0) {
        buyers := buyers + OptionSet(e.paymentPayer) + OptionSet(e.receiver);
      }
      if e.IsNftSale() || e.kind == Transfer {
        propagators := propagators + OptionSet(e.sender);
      }
      EvidenceNext(events, controllers, i);
    }
    assert events[..|events|] == events;
  }

  lemma EvidenceNext(events: seq<NormalizedEvent>, controllers: seq<string>, i: nat)
    requires i < |events|
    ensures forall a :: Operator(events[..i + 1], controllers, a)
                        <==> Operator(events[..i], controllers, a) || OperatorEvent(events[i], a)
    ensures forall a :: Buyer(events[..i + 1], a) <==> Buyer(events[..i], a) || BuyerEvent(events[i], a)
    ensures forall a :: Propagator(events[..i + 1], a) <==> Propagator(events[..i], a) || PropagatorEvent(events[i], a)
  {
    assert events[..i + 1] == events[..i] + [events[i]];
    assert forall e :: e in events[..i + 1] <==> e in events[..i] || e == events[i];
  }

  /** Every address an event, a controller or a holder names. */
  method CollectKnown(events: seq<NormalizedEvent>, controllers: seq<string>, holderSet: set<string>,
                      ghost holders: seq<Holder>)
    returns (all: set<string>)
    requires forall a :: a in holderSet <==> Holds(holders, a)
    ensures forall a :: a in all <==> Known(events, controllers, holders, a)
  {
    all := {};
    for i := 0 to |events|
      invariant forall a :: a in all <==> exists e :: e in events[..i] && Names(e, a)
    {
      var e := events[i];
      assert events[..i + 1] == events[..i] + [e];
      assert e in events[..i + 1];
      all := all + OptionSet(e.sender) + OptionSet(e.receiver) + OptionSet(e.feePayer)
             + OptionSet(e.paymentPayer) + OptionSet(e.paymentRecipient);
    }
    assert events[..|events|] == events;
    all := all + (set a | a in controllers) + holderSet;
  }

  // ----- promoting colluders -----

  function Sales(): NormalizedEvent -> bool { (e: NormalizedEvent) => e.IsNftSale() }

  /** The arrows of the sale graph are the paid sales. */
  lemma SaleArrows(events: seq<NormalizedEvent>, a: string, b: string)
    ensures IsArrow(events, Sales(), a, b) <==> exists e :: e in events && Sold(e, a, b)
  {
    forall e
      ensures Sold(e, a, b) <==> Sales()(e) && e.sender == Some(a) && e.receiver == Some(b)
    {
      SoldAndMoved(e, a, b);
    }
  }

  ghost predicate AllVertices(g: PropagationGraph, components: seq<seq<nat>>) {
    forall c, i | 0 <= c < |components| && 0 <= i < |components[c]| :: components[c][i] < |g.addresses|
  }

  /** A component of two or more addresses that includes an operator. */
  predicate Circle(g: PropagationGraph, component: seq<nat>, operators: set<string>)
    requires forall i | 0 <= i < |component| :: component[i] < |g.addresses|
  {
    |component| >= 2 && exists i | 0 <= i < |component| :: g.addresses[component[i]] in operators
  }

  function Members(g: PropagationGraph, component: seq<nat>): set<string>
    requires forall i | 0 <= i < |component| :: component[i] < |g.addresses|
  {
    set i | 0 <= i < |component| :: g.addresses[component[i]]
  }

  /** The addresses that stand in a circle. */
  ghost function Circled(g: PropagationGraph, components: seq<seq<nat>>, operators: set<string>): set<string>
    requires AllVertices(g, components)
  {
    if components == [] then {}
    else
      var last := components[|components| - 1];
      Circled(g, components[..|components| - 1], operators)
      + if Circle(g, last, operators) then Members(g, last) else {}
  }

  lemma {:induction false} CircledMember(g: PropagationGraph, components: seq<seq<nat>>, operators: set<string>,
                                         a: string)
    requires AllVertices(g, components)
    ensures a in Circled(g, components, operators) <==>
              exists c :: 0 <= c < |components| && Circle(g, components[c], operators) && a in Members(g, components[c])
  {
    if components != [] {
      var rest := components[..|components| - 1];
      CircledMember(g, rest, operators, a);
      assert forall c | 0 <= c < |rest| :: rest[c] == components[c];
    }
  }

  ghost predicate Promoted(roles: map<string, AddressRole>, before: map<string, AddressRole>, circled: set<string>) {
    && roles.Keys == before.Keys
    && forall a | a in roles ::
         roles[a] == if before[a] == Neutral && a in circled then SuspectedColluder else before[a]
  }

  method PromoteMembers(g: PropagationGraph, component: seq<nat>, before: map<string, AddressRole>)
    returns (roles: map<string, AddressRole>)
    requires forall i | 0 <= i < |component| :: component[i] < |g.addresses| && g.addresses[component[i]] in before
    ensures Promoted(roles, before, Members(g, component))
  {
    roles := before;
    for i := 0 to |component|
      invariant Promoted(roles, before, set k | 0 <= k < i :: g.addresses[component[k]])
    {
      var a := g.addresses[component[i]];
      if roles[a] == Neutral {
        roles := roles[a := SuspectedColluder];
      }
    }
  }

  method PromoteColluders(g: PropagationGraph, components: seq<seq<nat>>, operators: set<string>,
                          before: map<string, AddressRole>)
    returns (roles: map<string, AddressRole>)
    requires AllVertices(g, components)
    requires forall v | 0 <= v < |g.addresses| :: g.addresses[v] in before
    ensures Promoted(roles, before, Circled(g, components, operators))
  {
    roles := before;
    for c := 0 to |components|
      invariant AllVertices(g, components[..c])
      invariant Promoted(roles, before, Circled(g, components[..c], operators))
    {
      assert components[..c + 1][..c] == components[..c];
      if Circle(g, components[c], operators) {
        roles := PromoteMembers(g, components[c], roles);
      }
    }
    assert components[..|components|] == components;
  }

  // ----- the whole attribution -----

  /** a trades on a common circle of sales with an operator. */
  ghost predicate TradesWithOperator(events: seq<NormalizedEvent>, controllers: seq<string>, a: string) {
    exists b :: Operator(events, controllers, b) && MutualAddresses(events, Sales(), a, b)
  }

  lemma VerticesListed(g: PropagationGraph, components: seq<seq<nat>>)
    requires g.WellFormed() && SccDecomposition(g, components)
    ensures AllVertices(g, components)
  {
    var home :| ComponentsOf(g, components, home);
    forall c: nat, i: nat | c < |components| && i < |components[c]|
      ensures components[c][i] < |g.addresses|
    {
      MemberHome(g, components, home, c, components[c][i]);
    }
  }

  lemma CircledTrades(g: PropagationGraph, components: seq<seq<nat>>, events: seq<NormalizedEvent>,
                      controllers: seq<string>, operators: set<string>, a: string)
    requires IsGraphOf(g, events, Sales()) && SccDecomposition(g, components) && AllVertices(g, components)
    requires forall b | b in operators :: Operator(events, controllers, b)
    requires a in Circled(g, components, operators)
    ensures TradesWithOperator(events, controllers, a)
  {
    assert g.WellFormed();
    hide IsGraphOf, Operator, AddressReach, SccDecomposition;
    CircledMember(g, components, operators, a);
    var c: nat :| c < |components| && Circle(g, components[c], operators) && a in Members(g, components[c]);
    var i: nat :| i < |components[c]| && g.addresses[components[c][i]] == a;
    var j: nat :| j < |components[c]| && g.addresses[components[c][j]] in operators;
    var u, v := components[c][i], components[c][j];
    SameComponentReach(g, components, c, i, j);
    ReachToAddresses(g, events, Sales(), u, v);
    ReachToAddresses(g, events, Sales(), v, u);
    assert MutualAddresses(events, Sales(), a, g.addresses[v]);
  }

  lemma TradesCircled(g: PropagationGraph, components: seq<seq<nat>>, events: seq<NormalizedEvent>,
                      controllers: seq<string>, operators: set<string>, a: string)
    requires IsGraphOf(g, events, Sales()) && SccDecomposition(g, components) && AllVertices(g, components)
    requires forall b | Operator(events, controllers, b) :: b in operators
    requires a !in operators && TradesWithOperator(events, controllers, a)
    ensures a in Circled(g, components, operators)
  {
    var b :| Operator(events, controllers, b) && MutualAddresses(events, Sales(), a, b);
    MutualAreVertices(g, events, Sales(), a, b);
    MutualAreVertices(g, events, Sales(), b, a);
    assert g.WellFormed();
    hide IsGraphOf, Operator, AddressReach, SccDecomposition, Circled;
    var u: nat :| u < g.Count() && g.addresses[u] == a;
    var v: nat :| v < g.Count() && g.addresses[v] == b;
    AddressesToReach(g, events, Sales(), u, v);
    AddressesToReach(g, events, Sales(), v, u);
    var c, i, j := CommonComponent(g, components, u, v);
    assert i != j;
    assert Circle(g, components[c], operators) && a in Members(g, components[c]);
    CircledMember(g, components, operators, a);
  }

  method AttributeAddresses(events: seq<NormalizedEvent>, controllers: seq<string>, holders: seq<Holder>)
    returns (roles: map<string, AddressRole>)
    ensures forall a :: a in roles <==> Known(events, controllers, holders, a)
    ensures forall a | a in roles && BaseRole(events, controllers, holders, a) != Neutral ::
              roles[a] == BaseRole(events, controllers, holders, a)
    ensures forall a | a in roles && BaseRole(events, controllers, holders, a) == Neutral ::
              roles[a] == if TradesWithOperator(events, controllers, a) then SuspectedColluder else Neutral
  {
    var operators, buyers, propagators := CollectEvidence(events, controllers);
    var holderSet := set h | h in holders :: h.1;
    var all := CollectKnown(events, controllers, holderSet, holders);
    var before := map a | a in all ::
      if a in operators then SuspectedOperator
      else if a in buyers && a in propagators then CorruptedVictim
      else if a in buyers && a in holderSet then LikelyVictim
      else Neutral;
    var g := BuildFiltered(events, Sales());
    var components := StronglyConnectedComponents(g);
    VerticesListed(g, components);
    VerticesKnown(g, events, controllers, holders);
    roles := PromoteColluders(g, components, operators, before);
    forall a | a in roles && BaseRole(events, controllers, holders, a) == Neutral
      ensures roles[a] == if TradesWithOperator(events, controllers, a) then SuspectedColluder else Neutral
    {
      if a in Circled(g, components, operators) {
        CircledTrades(g, components, events, controllers, operators, a);
      } else if TradesWithOperator(events, controllers, a) {
        TradesCircled(g, components, events, controllers, operators, a);
      }
    }
  }

  lemma VerticesKnown(g: PropagationGraph, events: seq<NormalizedEvent>, controllers: seq<string>, holders: seq<Holder>)
    requires IsGraphOf(g, events, Sales())
    ensures forall v | 0 <= v < g.Count() :: Known(events, controllers, holders, g.addresses[v])
  {
    forall v | 0 <= v < g.Count()
      ensures Known(events, controllers, holders, g.addresses[v])
    {
      assert g.addresses[v] in g.addresses;
      var e :| e in events && Sales()(e) && (e.sender == Some(g.addresses[v]) || e.receiver == Some(g.addresses[v]));
      assert Names(e, g.addresses[v]);
    }
  }
}
