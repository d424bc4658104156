/** The explicit-stack backtracking search for a layered transfer path: it ends,
    it finds a simple path of the asked length exactly when there is one, and on
    a graph with ascending targets it finds the first in dictionary order.
 */
module LayeredPath {
  import opened Arithmetic
  import opened Orders
  import opened Graph
  import opened Events
  import opened GraphBuild

  ghost predicate SimplePath(g: PropagationGraph, p: seq<nat>)
    requires g.WellFormed()
  {
    && (forall i | 0 <= i < |p| :: p[i] < g.Count())
    && NoDuplicates(p)
    && (forall i, j | 0 <= i && j == i + 1 && j < |p| :: g.Edge(p[i], p[j]))
  }

  /** No simple path on k vertices starts with this prefix. */
  ghost predicate Dead(g: PropagationGraph, k: nat, prefix: seq<nat>)
    requires g.WellFormed()
  {
    forall q | SimplePath(g, q) && |q| == k :: !(prefix <= q)
  }

  /** Slots from lo up to hi, the last `open` of them excepted, lead nowhere from
      the prefix. */
  ghost predicate DeadSlots(g: PropagationGraph, k: nat, prefix: seq<nat>, lo: nat, hi: nat, open: nat)
    requires g.WellFormed()
  {
    forall e | lo <= e && e + open < hi && e < |g.edges| :: Dead(g, k, prefix + [g.edges[e]])
  }

  // ----- the state of the search -----

  /** Level i has read its edges up to nextEdges[i]; the last one read is the one
      level i + 1 stands on. */
  ghost predicate Level(g: PropagationGraph, path: seq<nat>, nextEdges: seq<nat>, i: nat)
    requires g.WellFormed() && i < |path| == |nextEdges|
  {
    && path[i] < g.Count()
    && g.offsets[path[i]] <= nextEdges[i] <= g.offsets[path[i] + 1] <= |g.edges|
    && (i + 1 < |path| ==>
          g.offsets[path[i]] < nextEdges[i] && g.edges[nextEdges[i] - 1] == path[i + 1])
  }

  ghost predicate LevelExplored(g: PropagationGraph, k: nat, path: seq<nat>, nextEdges: seq<nat>, i: nat)
    requires g.WellFormed() && i < |path| == |nextEdges| && path[i] < g.Count()
  {
    DeadSlots(g, k, path[..i + 1], g.offsets[path[i]], nextEdges[i], if i + 1 < |path| then 1 else 0)
  }

  ghost predicate Searching(g: PropagationGraph, k: nat, start: nat, path: seq<nat>, nextEdges: seq<nat>) {
    && g.WellFormed()
    && |path| == |nextEdges| <= k
    && start < g.Count()
    && SimplePath(g, path)
    && (path != [] ==> path[0] == start)
    && (path == [] ==> Dead(g, k, [start]))
    && (forall i | 0 <= i < |path| :: Level(g, path, nextEdges, i))
    && (forall i | 0 <= i < |path| :: LevelExplored(g, k, path, nextEdges, i))
  }

  lemma SlotBounds(g: PropagationGraph, v: nat)
    requires g.WellFormed() && v < g.Count()
    ensures g.offsets[v] <= g.offsets[v + 1] <= |g.edges|
  {
  }

  lemma StartKeeps(g: PropagationGraph, k: nat, start: nat)
    requires g.WellFormed() && start < g.Count() && 0 < k
    ensures Searching(g, k, start, [start], [g.offsets[start]])
  {
    SlotBounds(g, start);
  }

  // ----- the three moves -----

  function Read(nextEdges: seq<nat>): seq<nat>
    requires nextEdges != []
  {
    nextEdges[..|nextEdges| - 1] + [nextEdges[|nextEdges| - 1] + 1]
  }

  ghost predicate CanRead(g: PropagationGraph, k: nat, start: nat, path: seq<nat>, nextEdges: seq<nat>, next: nat) {
    && Searching(g, k, start, path, nextEdges)
    && path != [] && |path| < k
    && nextEdges[|path| - 1] < g.offsets[path[|path| - 1] + 1]
    && nextEdges[|path| - 1] < |g.edges|
    && next == g.edges[nextEdges[|path| - 1]]
  }

  /** The next vertex is already on the path. */
  lemma SkipKeeps(g: PropagationGraph, k: nat, start: nat, path: seq<nat>, nextEdges: seq<nat>, next: nat)
    requires CanRead(g, k, start, path, nextEdges, next) && next in path
    ensures Searching(g, k, start, path, Read(nextEdges))
  {
    hide PropagationGraph.WellFormed, PropagationGraph.Edge;
    var n, read := |path|, Read(nextEdges);
    forall q | path + [next] <= q
      ensures !NoDuplicates(q)
    {
      var i :| 0 <= i < n && path[i] == next;
      assert q[i] == (path + [next])[i] && q[n] == (path + [next])[n];
    }
    assert Dead(g, k, path + [next]);
    assert path[..n] == path;
    forall i | 0 <= i < n
      ensures Level(g, path, read, i) && LevelExplored(g, k, path, read, i)
    {
      assert Level(g, path, nextEdges, i) && LevelExplored(g, k, path, nextEdges, i);
    }
  }

  /** The next vertex is new: stand on it. */
  lemma PushKeeps(g: PropagationGraph, k: nat, start: nat, path: seq<nat>, nextEdges: seq<nat>, next: nat)
    requires CanRead(g, k, start, path, nextEdges, next) && next !in path && next < g.Count()
    ensures Searching(g, k, start, path + [next], Read(nextEdges) + [g.offsets[next]])
  {
    var n, longer, read := |path|, path + [next], Read(nextEdges) + [g.offsets[next]];
    assert Level(g, path, nextEdges, n - 1);
    PushSimple(g, path, nextEdges[n - 1], next);
    SlotBounds(g, next);
    hide PropagationGraph.WellFormed, PropagationGraph.Edge, SimplePath, Dead;
    forall i | 0 <= i < n + 1
      ensures Level(g, longer, read, i) && LevelExplored(g, k, longer, read, i)
    {
      if i < n {
        assert Level(g, path, nextEdges, i) && LevelExplored(g, k, path, nextEdges, i);
        assert longer[..i + 1] == path[..i + 1];
      }
    }
  }

  lemma PushSimple(g: PropagationGraph, path: seq<nat>, e: nat, next: nat)
    requires g.WellFormed() && SimplePath(g, path) && path != [] && next !in path
    requires g.offsets[path[|path| - 1]] <= e < g.offsets[path[|path| - 1] + 1] && e < |g.edges|
    requires next == g.edges[e]
    ensures SimplePath(g, path + [next])
  {
    SlotInRange(g, path[|path| - 1], e);
    var longer := path + [next];
    forall i, j | 0 <= i && j == i + 1 && j < |longer|
      ensures g.Edge(longer[i], longer[j])
    {
      if j < |path| {
        assert g.Edge(path[i], path[j]);
      }
    }
  }

  /** Every edge of the last vertex is read: nothing starts with this path. */
  lemma ExhaustedIsDead(g: PropagationGraph, k: nat, start: nat, path: seq<nat>, nextEdges: seq<nat>)
    requires Searching(g, k, start, path, nextEdges) && path != [] && |path| < k
    requires nextEdges[|path| - 1] == g.offsets[path[|path| - 1] + 1]
    ensures Dead(g, k, path)
  {
    var n := |path|;
    assert Level(g, path, nextEdges, n - 1) && LevelExplored(g, k, path, nextEdges, n - 1);
    assert path[..n] == path;
    forall q | SimplePath(g, q) && |q| == k
      ensures !(path <= q)
    {
      if path <= q {
        var e := NextSlot(g, path, q);
      }
    }
  }

  /** A simple path that goes on after a prefix does so through a slot of the
      prefix's last vertex. */
  lemma NextSlot(g: PropagationGraph, prefix: seq<nat>, q: seq<nat>) returns (e: nat)
    requires g.WellFormed() && SimplePath(g, q)
    requires prefix != [] && prefix <= q && |prefix| < |q|
    ensures var u := prefix[|prefix| - 1];
            && u < g.Count() && g.offsets[u] <= e < g.offsets[u + 1] && e < |g.edges|
            && g.edges[e] == q[|prefix|]
            && prefix + [g.edges[e]] <= q
  {
    var n := |prefix|;
    assert g.Edge(q[n - 1], q[n]);
    e :| g.EdgeAt(q[n - 1], e, q[n]);
    SlotInRange(g, q[n - 1], e);
    assert prefix + [q[n]] == q[..n + 1];
  }

  lemma ShorterIsSimple(g: PropagationGraph, path: seq<nat>, n: nat)
    requires g.WellFormed() && SimplePath(g, path) && n <= |path|
    ensures SimplePath(g, path[..n])
  {
    hide PropagationGraph.WellFormed, PropagationGraph.Edge;
  }

  /** The levels below the newest one stay as they are; the edge to the given-up vertex
      counts as explored now. */
  lemma PopLevel(g: PropagationGraph, k: nat, path: seq<nat>, nextEdges: seq<nat>, i: nat)
    requires g.WellFormed() && i + 1 < |path| == |nextEdges| && path[i] < g.Count()
    requires Level(g, path, nextEdges, i) && LevelExplored(g, k, path, nextEdges, i) && Dead(g, k, path)
    ensures var n := |path| - 1;
      Level(g, path[..n], nextEdges[..n], i) && LevelExplored(g, k, path[..n], nextEdges[..n], i)
  {
    hide PropagationGraph.WellFormed, Dead;
    var n := |path| - 1;
    assert path[..n][..i + 1] == path[..i + 1];
    if i == n - 1 {
      assert path[..i + 1] + [path[n]] == path;
    }
  }

  lemma LevelAt(g: PropagationGraph, k: nat, start: nat, path: seq<nat>, nextEdges: seq<nat>, i: nat)
    requires Searching(g, k, start, path, nextEdges) && i < |path|
    ensures g.WellFormed() && |path| == |nextEdges| <= k && path[i] < g.Count() && path[0] == start
    ensures SimplePath(g, path) && Level(g, path, nextEdges, i) && LevelExplored(g, k, path, nextEdges, i)
  {
    hide PropagationGraph.WellFormed, SimplePath, LevelExplored;
    assert Level(g, path, nextEdges, i);
  }

  /** What makes up a state of the search. */
  lemma SearchingFromLevels(g: PropagationGraph, k: nat, start: nat, path: seq<nat>, nextEdges: seq<nat>)
    requires g.WellFormed() && |path| == |nextEdges| <= k && start < g.Count() && SimplePath(g, path)
    requires if path == [] then Dead(g, k, [start]) else path[0] == start
    requires forall i | 0 <= i < |path| ::
               Level(g, path, nextEdges, i) && path[i] < g.Count() && LevelExplored(g, k, path, nextEdges, i)
    ensures Searching(g, k, start, path, nextEdges)
  {
    hide PropagationGraph.WellFormed, SimplePath, Level, LevelExplored, Dead;
  }

  lemma PopKeeps(g: PropagationGraph, k: nat, start: nat, path: seq<nat>, nextEdges: seq<nat>)
    requires Searching(g, k, start, path, nextEdges) && path != [] && |path| < k
    requires nextEdges[|path| - 1] == g.offsets[path[|path| - 1] + 1]
    ensures Searching(g, k, start, path[..|path| - 1], nextEdges[..|path| - 1])
  {
    var n := |path| - 1;
    ExhaustedIsDead(g, k, start, path, nextEdges);
    hide *;
    LevelAt(g, k, start, path, nextEdges, 0);
    ShorterIsSimple(g, path, n);
    forall i | 0 <= i < n
      ensures path[i] < g.Count() && Level(g, path[..n], nextEdges[..n], i)
      ensures LevelExplored(g, k, path[..n], nextEdges[..n], i)
    {
      LevelAt(g, k, start, path, nextEdges, i);
      PopLevel(g, k, path, nextEdges, i);
    }
    if n == 0 {
      assert path == [start];
    }
    SearchingFromLevels(g, k, start, path[..n], nextEdges[..n]);
  }

  // ----- termination: an upper bound on the turns left -----

  ghost function LevelCost(g: PropagationGraph, k: nat, i: nat): nat
    decreases k - i
  {
    if i >= k then 1 else |g.edges| * LevelCost(g, k, i + 1) + 2
  }

  ghost function TurnsLeft(g: PropagationGraph, k: nat, path: seq<nat>, nextEdges: seq<nat>): nat {
    if path == [] || |nextEdges| != |path| then 0
    else
      var n := |path|;
      var left := if path[n - 1] + 1 < |g.offsets| && nextEdges[n - 1] < g.offsets[path[n - 1] + 1]
                  then g.offsets[path[n - 1] + 1] - nextEdges[n - 1] else 0;
      TurnsLeft(g, k, path[..n - 1], nextEdges[..n - 1]) + left * LevelCost(g, k, n) + 1
  }

  lemma SkipDecreases(g: PropagationGraph, k: nat, start: nat, path: seq<nat>, nextEdges: seq<nat>, next: nat)
    requires CanRead(g, k, start, path, nextEdges, next)
    ensures TurnsLeft(g, k, path, Read(nextEdges)) + LevelCost(g, k, |path|) == TurnsLeft(g, k, path, nextEdges)
  {
    var n := |path|;
    LastLevel(g, k, start, path, nextEdges);
    assert Read(nextEdges)[..n - 1] == nextEdges[..n - 1];
    var left := g.offsets[path[n - 1] + 1] - nextEdges[n - 1];
    assert (left - 1) * LevelCost(g, k, n) + LevelCost(g, k, n) == left * LevelCost(g, k, n);
  }

  lemma PushDecreases(g: PropagationGraph, k: nat, start: nat, path: seq<nat>, nextEdges: seq<nat>, next: nat)
    requires CanRead(g, k, start, path, nextEdges, next) && next < g.Count()
    ensures TurnsLeft(g, k, path + [next], Read(nextEdges) + [g.offsets[next]]) < TurnsLeft(g, k, path, nextEdges)
  {
    SkipDecreases(g, k, start, path, nextEdges, next);
    SlotBounds(g, next);
    var n, longer, read := |path|, path + [next], Read(nextEdges) + [g.offsets[next]];
    assert longer[..n] == path && read[..n] == Read(nextEdges);
    MulMonotone(g.offsets[next + 1] - g.offsets[next], |g.edges|, LevelCost(g, k, n + 1));
  }

  // ----- what the answer says -----

  /** At the end of the search every path on k vertices either starts at an
      earlier vertex, which was ruled out, or comes after the answer. */
  lemma AnswerIsFirst(g: PropagationGraph, k: nat, start: nat, path: seq<nat>, nextEdges: seq<nat>, q: seq<nat>)
    requires Searching(g, k, start, path, nextEdges) && |path| == k && 0 < k
    requires forall v: nat | v < start :: Dead(g, k, [v])
    requires g.AscendingTargets()
    requires SimplePath(g, q) && |q| == k
    ensures LexLe(NatLe(), path, q)
  {
    if q == path {
      LexTotalAt(NatLe(), path, q);
    } else {
      var i := Divergence(path, q);
      if i == 0 {
        assert [q[0]] <= q;
      } else {
        LaterSibling(g, k, start, path, nextEdges, q, i);
      }
      LexAtDivergence(path, q, i);
    }
  }

  lemma LaterSibling(g: PropagationGraph, k: nat, start: nat, path: seq<nat>, nextEdges: seq<nat>, q: seq<nat>, i: nat)
    requires Searching(g, k, start, path, nextEdges) && |path| == k
    requires g.AscendingTargets()
    requires SimplePath(g, q) && |q| == k
    requires 0 < i < k && path[..i] == q[..i] && path[i] != q[i]
    ensures path[i] < q[i]
  {
    assert Level(g, path, nextEdges, i - 1) && LevelExplored(g, k, path, nextEdges, i - 1);
    var e := NextSlot(g, path[..i], q);
  }

  lemma {:induction false} Divergence(a: seq<nat>, b: seq<nat>) returns (i: nat)
    requires |a| == |b| && a != b
    ensures i < |a| && a[..i] == b[..i] && a[i] != b[i]
  {
    if a[0] != b[0] {
      i := 0;
    } else {
      assert a == [a[0]] + a[1..] && b == [b[0]] + b[1..];
      var j := Divergence(a[1..], b[1..]);
      i := j + 1;
      assert a[..i] == [a[0]] + a[1..][..j] && b[..i] == [b[0]] + b[1..][..j];
    }
  }

  lemma {:induction false} LexAtDivergence(a: seq<nat>, b: seq<nat>, i: nat)
    requires i < |a| == |b| && a[..i] == b[..i] && a[i] < b[i]
    ensures LexLe(NatLe(), a, b)
  {
    if i > 0 {
      assert a[0] == a[..i][0] == b[..i][0] == b[0];
      assert a[1..][..i - 1] == a[..i][1..] && b[1..][..i - 1] == b[..i][1..];
      LexAtDivergence(a[1..], b[1..], i - 1);
    }
  }

  // ----- the search -----

  method FirstLayeredPath(g: PropagationGraph, minimumAddresses: nat) returns (r: Option<seq<nat>>)
    requires g.WellFormed()
    ensures r.Some? ==> SimplePath(g, r.value) && |r.value| == minimumAddresses
    ensures r.None? ==> forall q | SimplePath(g, q) :: |q| != minimumAddresses
    ensures r.Some? && g.AscendingTargets() ==>
              forall q | SimplePath(g, q) && |q| == minimumAddresses :: LexLe(NatLe(), r.value, q)
  {
    if minimumAddresses == 0 {
      return Some([]);
    }
    for start := 0 to g.Count()
      invariant forall v: nat | v < start :: Dead(g, minimumAddresses, [v])
    {
      var path: seq<nat> := [start];
      var nextEdges: seq<nat> := [g.offsets[start]];
      StartKeeps(g, minimumAddresses, start);
      path, nextEdges := SearchFrom(g, minimumAddresses, start, path, nextEdges);
      if |path| == minimumAddresses {
        forall q | SimplePath(g, q) && |q| == minimumAddresses && g.AscendingTargets()
          ensures LexLe(NatLe(), path, q)
        {
          AnswerIsFirst(g, minimumAddresses, start, path, nextEdges, q);
        }
        return Some(path);
      }
    }
    forall q | SimplePath(g, q)
      ensures |q| != minimumAddresses
    {
      if |q| == minimumAddresses {
        StartsWithItsFirst(q);
      }
    }
    return None;
  }

  lemma StartsWithItsFirst(q: seq<nat>)
    requires q != []
    ensures [q[0]] <= q
  {
  }

  /** One turn: give up the newest vertex, skip its next edge, or take it. */
  method SearchTurn(g: PropagationGraph, k: nat, start: nat, path0: seq<nat>, nextEdges0: seq<nat>)
    returns (path: seq<nat>, nextEdges: seq<nat>)
    requires Searching(g, k, start, path0, nextEdges0) && path0 != [] && |path0| != k
    ensures Searching(g, k, start, path, nextEdges)
    ensures TurnsLeft(g, k, path, nextEdges) < TurnsLeft(g, k, path0, nextEdges0)
  {
    hide Searching, PropagationGraph.WellFormed;
    path, nextEdges := path0, nextEdges0;
    LastLevel(g, k, start, path, nextEdges);
    var last := |path| - 1;
    var vertex := path[last];
    if nextEdges[last] == g.offsets[vertex + 1] {
      PopKeeps(g, k, start, path, nextEdges);
      nextEdges := nextEdges[..last];
      path := path[..last];
    } else {
      var next := g.edges[nextEdges[last]];
      if next in path {
        SkipKeeps(g, k, start, path, nextEdges, next);
        SkipDecreases(g, k, start, path, nextEdges, next);
        nextEdges := nextEdges[..last] + [nextEdges[last] + 1];
      } else {
        PushKeeps(g, k, start, path, nextEdges, next);
        PushDecreases(g, k, start, path, nextEdges, next);
        nextEdges := nextEdges[..last] + [nextEdges[last] + 1] + [g.offsets[next]];
        path := path + [next];
      }
    }
  }

  /** The inner loop: backtrack until the path is long enough or used up. */
  method SearchFrom(g: PropagationGraph, k: nat, start: nat, path0: seq<nat>, nextEdges0: seq<nat>)
    returns (path: seq<nat>, nextEdges: seq<nat>)
    requires Searching(g, k, start, path0, nextEdges0)
    ensures Searching(g, k, start, path, nextEdges)
    ensures path == [] || |path| == k
  {
    hide Searching, TurnsLeft;
    path, nextEdges := path0, nextEdges0;
    SameDepth(g, k, start, path, nextEdges);
    while nextEdges != [] && |path| != k
      invariant Searching(g, k, start, path, nextEdges)
      invariant |path| == |nextEdges|
      decreases TurnsLeft(g, k, path, nextEdges)
    {
      path, nextEdges := SearchTurn(g, k, start, path, nextEdges);
      SameDepth(g, k, start, path, nextEdges);
    }
  }

  lemma SameDepth(g: PropagationGraph, k: nat, start: nat, path: seq<nat>, nextEdges: seq<nat>)
    requires Searching(g, k, start, path, nextEdges)
    ensures |path| == |nextEdges| <= k
  {
  }

  lemma LastLevel(g: PropagationGraph, k: nat, start: nat, path: seq<nat>, nextEdges: seq<nat>)
    requires Searching(g, k, start, path, nextEdges) && path != []
    ensures g.WellFormed() && |path| == |nextEdges| <= k
    ensures var v := path[|path| - 1];
            && v < g.Count() && v + 1 < |g.offsets|
            && nextEdges[|path| - 1] <= g.offsets[v + 1] <= |g.edges|
            && (nextEdges[|path| - 1] < g.offsets[v + 1] ==> g.edges[nextEdges[|path| - 1]] < g.Count())
  {
    assert Level(g, path, nextEdges, |path| - 1);
  }

  // ----- the counting form and the instance-building form -----

  method CountLayeredPaths(g: PropagationGraph, minimumAddresses: nat) returns (count: nat)
    requires g.WellFormed()
    ensures count == 0 || count == 1
    ensures count == 1 <==> exists q :: SimplePath(g, q) && |q| == minimumAddresses
  {
    var path := FirstLayeredPath(g, minimumAddresses);
    count := if path.Some? then 1 else 0;
  }

  /** The addresses along the path and, per hop, the event that is shown for it. */
  datatype LayeredInstance = LayeredInstance(addresses: seq<string>, selected: seq<nat>)

  function Propagation(): NormalizedEvent -> bool { (e: NormalizedEvent) => e.IsNftPropagation() }

  /** The arrows of the production graph are the moves of NFTs. */
  lemma PropagationArrows(events: seq<NormalizedEvent>, a: string, b: string)
    ensures IsArrow(events, Propagation(), a, b) <==> exists e :: e in events && Moved(e, a, b)
  {
    forall e
      ensures Moved(e, a, b) <==> Propagation()(e) && e.sender == Some(a) && e.receiver == Some(b)
    {
      SoldAndMoved(e, a, b);
    }
  }

  /** Event i moves an NFT from a to b. */
  predicate Hop(events: seq<NormalizedEvent>, i: nat, a: string, b: string) {
    i < |events| && events[i].IsNftPropagation() && events[i].sender == Some(a) && events[i].receiver == Some(b)
  }

  ghost predicate NoHopBefore(events: seq<NormalizedEvent>, n: nat, a: string, b: string) {
    forall i: nat | i < n :: !Hop(events, i, a, b)
  }

  /** Every hop of the path shows the first event that makes it. */
  ghost predicate ShowsPath(events: seq<NormalizedEvent>, instance: LayeredInstance) {
    && |instance.selected| + 1 == |instance.addresses|
    && forall h | 0 <= h < |instance.selected| ::
         && Hop(events, instance.selected[h], instance.addresses[h], instance.addresses[h + 1])
         && NoHopBefore(events, instance.selected[h], instance.addresses[h], instance.addresses[h + 1])
  }

  /** The lexicographically least simple path on k vertices. */
  ghost predicate IsFirstPath(g: PropagationGraph, k: nat, p: seq<nat>)
    requires g.WellFormed()
  {
    && SimplePath(g, p) && |p| == k
    && forall q | SimplePath(g, q) && |q| == k :: LexLe(NatLe(), p, q)
  }

  function Names(g: PropagationGraph, p: seq<nat>): (r: seq<string>)
    requires forall i | 0 <= i < |p| :: p[i] < |g.addresses|
    ensures |r| == |p| && forall i | 0 <= i < |p| :: r[i] == g.addresses[p[i]]
  {
    seq(|p|, i requires 0 <= i < |p| => g.addresses[p[i]])
  }

  /** The instance names the vertices of the first path. */
  ghost predicate NamesFirstPath(g: PropagationGraph, k: nat, instance: LayeredInstance)
    requires g.WellFormed()
  {
    exists p :: IsFirstPath(g, k, p) && instance.addresses == Names(g, p)
  }

  ghost predicate FirstHops(events: seq<NormalizedEvent>, n: nat, first: map<(string, string), nat>)
    requires n <= |events|
  {
    && (forall a, b | (a, b) in first ::
          first[(a, b)] < n && Hop(events, first[(a, b)], a, b)
          && NoHopBefore(events, first[(a, b)], a, b))
    && (forall i: nat, a, b | i < n && Hop(events, i, a, b) :: (a, b) in first)
  }

  /** The first event of every sender-receiver pair. */
  method IndexEdgeEvents(events: seq<NormalizedEvent>) returns (first: map<(string, string), nat>)
    ensures FirstHops(events, |events|, first)
  {
    first := map[];
    for i := 0 to |events|
      invariant FirstHops(events, i, first)
    {
      if events[i].IsNftPropagation() && events[i].sender.Some? && events[i].receiver.Some? {
        var pair := (events[i].sender.value, events[i].receiver.value);
        if pair !in first {
          first := first[pair := i];
        }
      }
    }
  }

  /** The first event of every hop along the path. */
  method SelectHops(events: seq<NormalizedEvent>, g: PropagationGraph, path: seq<nat>,
                    first: map<(string, string), nat>)
    returns (selected: seq<nat>)
    requires IsGraphOf(g, events, Propagation()) && FirstHops(events, |events|, first)
    requires SimplePath(g, path)
    ensures path == [] ==> selected == []
    ensures path != [] ==> |selected| + 1 == |path| && ShowsPath(events, LayeredInstance(Names(g, path), selected))
  {
    hide FirstHops, ShowsPath, IsGraphOf, PropagationGraph.Edge, PropagationGraph.WellFormed, NoDuplicates;
    var addresses := Names(g, path);
    selected := [];
    for h := 0 to |path|
      invariant |selected| == if h == 0 then 0 else h - 1
      invariant forall k | 0 <= k < |selected| ::
          (addresses[k], addresses[k + 1]) in first && selected[k] == first[(addresses[k], addresses[k + 1])]
    {
      if h > 0 {
        HopShown(events, g, path[h - 1], path[h], first);
        if (addresses[h - 1], addresses[h]) in first {
          selected := selected + [first[(addresses[h - 1], addresses[h])]];
        }
      }
    }
    if path != [] {
      SelectedShow(events, first, addresses, selected);
    }
  }

  method LayeredPaths(events: seq<NormalizedEvent>, g: PropagationGraph, minimumAddresses: nat)
    returns (instances: seq<LayeredInstance>)
    requires IsGraphOf(g, events, Propagation())
    ensures |instances| <= 1
    ensures minimumAddresses == 0 ==> instances == []
    ensures minimumAddresses > 0 ==>
              (instances != [] <==> exists q :: SimplePath(g, q) && |q| == minimumAddresses)
    ensures forall instance | instance in instances ::
              |instance.addresses| == minimumAddresses && ShowsPath(events, instance)
              && NamesFirstPath(g, minimumAddresses, instance)
  {
    var first := IndexEdgeEvents(events);
    var found := FirstLayeredPath(g, minimumAddresses);
    if found.None? {
      return [];
    }
    assert g.WellFormed() && IsFirstPath(g, minimumAddresses, found.value);
    hide FirstHops, ShowsPath, SimplePath, IsGraphOf, PropagationGraph.WellFormed;
    var selected := SelectHops(events, g, found.value, first);
    if |selected| + 1 != |found.value| {
      return [];
    }
    instances := [LayeredInstance(Names(g, found.value), selected)];
    assert NamesFirstPath(g, minimumAddresses, instances[0]);
  }

  lemma SelectedShow(events: seq<NormalizedEvent>, first: map<(string, string), nat>, addresses: seq<string>,
                     selected: seq<nat>)
    requires FirstHops(events, |events|, first) && |selected| + 1 == |addresses|
    requires forall k | 0 <= k < |selected| ::
               (addresses[k], addresses[k + 1]) in first && selected[k] == first[(addresses[k], addresses[k + 1])]
    ensures ShowsPath(events, LayeredInstance(addresses, selected))
  {
  }

  /** On the production graph every edge has an event to show. */
  lemma HopShown(events: seq<NormalizedEvent>, g: PropagationGraph, u: nat, v: nat, first: map<(string, string), nat>)
    requires IsGraphOf(g, events, Propagation()) && FirstHops(events, |events|, first)
    requires u < g.Count() && v < g.Count() && g.Edge(u, v)
    ensures (g.addresses[u], g.addresses[v]) in first
  {
    assert IsArrow(events, Propagation(), g.addresses[u], g.addresses[v]);
    var e :| e in events && Propagation()(e) && e.sender == Some(g.addresses[u]) && e.receiver == Some(g.addresses[v]);
    var i: nat :| i < |events| && events[i] == e;
    assert Hop(events, i, g.addresses[u], g.addresses[v]);
  }

  /** Both forms on the production graph: they give the same number of layered
      transfers exactly when a path must have at least one address. */
  method CompareForms(events: seq<NormalizedEvent>, g: PropagationGraph, minimumAddresses: nat)
    returns (count: nat, instances: seq<LayeredInstance>)
    requires IsGraphOf(g, events, Propagation())
    ensures count == |instances| <==> minimumAddresses > 0
  {
    assert SimplePath(g, []);
    count := CountLayeredPaths(g, minimumAddresses);
    instances := LayeredPaths(events, g, minimumAddresses);
  }
}
