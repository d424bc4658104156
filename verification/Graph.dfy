/** The compressed-sparse-row graph of the propagation analysis, walks in it,
    and what a decomposition into strongly connected components is.
 */
module Graph {

  /** Vertex v is `addresses[v]`; its targets are `edges[offsets[v]..offsets[v + 1]]`. */
  datatype PropagationGraph = PropagationGraph(addresses: seq<string>, offsets: seq<nat>, edges: seq<nat>) {

    function Count(): nat { |addresses| }

    ghost predicate WellFormed() {
      && |offsets| == Count() + 1
      && offsets[0] == 0
      && offsets[Count()] == |edges|
      && (forall i, j | 0 <= i <= j <= Count() :: offsets[i] <= offsets[j])
      && (forall e | 0 <= e < |edges| :: edges[e] < Count())
    }

    /** The e-th slot of the edge array belongs to vertex u and points at v. */
    ghost predicate EdgeAt(u: nat, e: nat, v: nat)
      requires WellFormed()
    {
      u < Count() && offsets[u] <= e < offsets[u + 1] && edges[e] == v
    }

    ghost predicate Edge(u: nat, v: nat)
      requires WellFormed()
    {
      exists e :: EdgeAt(u, e, v)
    }

    /** Every vertex lists its targets in strictly ascending order. */
    ghost predicate AscendingTargets()
      requires WellFormed()
    {
      forall u, e, f | 0 <= u < Count() && offsets[u] <= e < f < offsets[u + 1] :: edges[e] < edges[f]
    }
  }

  lemma SlotInRange(g: PropagationGraph, u: nat, e: nat)
    requires g.WellFormed() && u < g.Count() && g.offsets[u] <= e < g.offsets[u + 1]
    ensures e < |g.edges| && g.edges[e] < g.Count()
    ensures g.EdgeAt(u, e, g.edges[e]) && g.Edge(u, g.edges[e])
  {
    assert g.offsets[u + 1] <= g.offsets[g.Count()];
    assert g.EdgeAt(u, e, g.edges[e]);
  }

  // ----- reachability -----

  /** No edge leaves s. */
  ghost predicate Closed(g: PropagationGraph, s: iset<nat>)
    requires g.WellFormed()
  {
    forall u, e | 0 <= u < g.Count() && u in s && g.offsets[u] <= e < g.offsets[u + 1] && e < |g.edges| ::
      g.edges[e] in s
  }

  /** v lies in every closed set around u; `ReachIsWalk` says it as a walk. */
  ghost predicate Reach(g: PropagationGraph, u: nat, v: nat)
    requires g.WellFormed()
  {
    forall s: iset<nat> | Closed(g, s) && u in s :: v in s
  }

  ghost predicate MutuallyReachable(g: PropagationGraph, u: nat, v: nat)
    requires g.WellFormed()
  {
    Reach(g, u, v) && Reach(g, v, u)
  }

  lemma ReachSlot(g: PropagationGraph, u: nat, e: nat)
    requires g.WellFormed() && u < g.Count() && g.offsets[u] <= e < g.offsets[u + 1]
    ensures e < |g.edges| && g.edges[e] < g.Count()
    ensures Reach(g, u, g.edges[e])
  {
    SlotInRange(g, u, e);
  }

  lemma ReachTrans(g: PropagationGraph, u: nat, v: nat, w: nat)
    requires g.WellFormed() && Reach(g, u, v) && Reach(g, v, w)
    ensures Reach(g, u, w)
  {
    forall s: iset<nat> | Closed(g, s) && u in s
      ensures w in s
    {
      assert v in s;
    }
  }

  ghost predicate WalkFromTo(g: PropagationGraph, p: seq<nat>, u: nat, v: nat)
    requires g.WellFormed()
  {
    && p != [] && p[0] == u && p[|p| - 1] == v
    && forall i | 0 <= i < |p| - 1 :: g.Edge(p[i], p[i + 1])
  }

  ghost predicate EndsWalk(g: PropagationGraph, u: nat, v: nat)
    requires g.WellFormed()
  {
    exists p :: WalkFromTo(g, p, u, v)
  }

  lemma {:induction false} WalkReaches(g: PropagationGraph, p: seq<nat>, u: nat, v: nat)
    requires g.WellFormed() && WalkFromTo(g, p, u, v)
    ensures Reach(g, u, v)
  {
    if |p| > 1 {
      var e :| g.EdgeAt(p[0], e, p[1]);
      ReachSlot(g, p[0], e);
      forall i | 0 <= i < |p[1..]| - 1
        ensures g.Edge(p[1..][i], p[1..][i + 1])
      {
        assert g.Edge(p[i + 1], p[i + 2]);
      }
      WalkReaches(g, p[1..], p[1], v);
      ReachTrans(g, u, p[1], v);
    }
  }

  /** Being in every closed set around u is the same as being at the end of a
      walk from u. */
  lemma ReachIsWalk(g: PropagationGraph, u: nat, v: nat)
    requires g.WellFormed()
    ensures Reach(g, u, v) <==> EndsWalk(g, u, v)
  {
    if Reach(g, u, v) {
      var s := iset w: nat | EndsWalk(g, u, w);
      assert u in s by { assert WalkFromTo(g, [u], u, u); }
      forall x, e | 0 <= x < g.Count() && x in s && g.offsets[x] <= e < g.offsets[x + 1] && e < |g.edges|
        ensures g.edges[e] in s
      {
        var p :| WalkFromTo(g, p, u, x);
        var q := p + [g.edges[e]];
        forall i | 0 <= i < |q| - 1
          ensures g.Edge(q[i], q[i + 1])
        {
          if i < |p| - 1 { assert g.Edge(p[i], p[i + 1]); } else { SlotInRange(g, x, e); }
        }
        assert WalkFromTo(g, q, u, g.edges[e]);
      }
      assert Closed(g, s);
    }
    forall p | WalkFromTo(g, p, u, v)
      ensures Reach(g, u, v)
    {
      WalkReaches(g, p, u, v);
    }
  }

  // ----- strongly connected components -----

  ghost predicate Ascending(s: seq<nat>) {
    forall i, j | 0 <= i < j < |s| :: s[i] < s[j]
  }

  /** `home[v]` is the position of v's component in `components`. */
  ghost predicate Partition(n: nat, components: seq<seq<nat>>, home: seq<nat>) {
    && |home| == n
    && (forall v | 0 <= v < n :: home[v] < |components| && v in components[home[v]])
    && (forall c, v {:trigger v in components[c]} | 0 <= c < |components| && v in components[c] ::
          v < n && home[v] == c)
    && (forall c | 0 <= c < |components| :: components[c] != [] && Ascending(components[c]))
  }

  /** The components partition the vertices, each ascending; two vertices share
      one exactly when each reaches the other; and no edge leads to a component
      that was emitted later. */
  ghost predicate ComponentsOf(g: PropagationGraph, components: seq<seq<nat>>, home: seq<nat>)
    requires g.WellFormed()
  {
    && Partition(g.Count(), components, home)
    && (forall u, v | 0 <= u < g.Count() && 0 <= v < g.Count() ::
          home[u] == home[v] <==> MutuallyReachable(g, u, v))
    && (forall u, e | 0 <= u < g.Count() && g.offsets[u] <= e < g.offsets[u + 1] && e < |g.edges| ::
          home[g.edges[e]] <= home[u])
  }

  ghost predicate SccDecomposition(g: PropagationGraph, components: seq<seq<nat>>)
    requires g.WellFormed()
  {
    exists home :: ComponentsOf(g, components, home)
  }

  lemma MemberHome(g: PropagationGraph, components: seq<seq<nat>>, home: seq<nat>, c: nat, v: nat)
    requires g.WellFormed() && ComponentsOf(g, components, home)
    requires c < |components| && v in components[c]
    ensures v < g.Count() && home[v] == c
  {
  }

  /** Where two mutually reachable vertices stand. */
  lemma CommonComponent(g: PropagationGraph, components: seq<seq<nat>>, u: nat, v: nat) returns (c: nat, i: nat, j: nat)
    requires g.WellFormed() && SccDecomposition(g, components)
    requires u < g.Count() && v < g.Count() && MutuallyReachable(g, u, v)
    ensures c < |components| && i < |components[c]| && j < |components[c]|
    ensures components[c][i] == u && components[c][j] == v
  {
    var home :| ComponentsOf(g, components, home);
    c := home[u];
    assert home[v] == c;
    i :| 0 <= i < |components[c]| && components[c][i] == u;
    j :| 0 <= j < |components[c]| && components[c][j] == v;
  }

  lemma SameComponentReach(g: PropagationGraph, components: seq<seq<nat>>, c: nat, i: nat, j: nat)
    requires g.WellFormed() && SccDecomposition(g, components)
    requires c < |components| && i < |components[c]| && j < |components[c]|
    ensures components[c][i] < g.Count() && components[c][j] < g.Count()
    ensures MutuallyReachable(g, components[c][i], components[c][j])
  {
    var home :| ComponentsOf(g, components, home);
    MemberHome(g, components, home, c, components[c][i]);
    MemberHome(g, components, home, c, components[c][j]);
  }
}
