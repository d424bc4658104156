/** The iterative strongly-connected-components search with an explicit frame
    stack: its state, the invariant every step keeps, and the class itself.
 */
module Tarjan {
  import opened Orders
  import opened Graph

  datatype Frame = Frame(vertex: nat, nextEdge: nat, parent: Option<nat>)

  /** A value copy of the search state. The last four fields are bookkeeping of
      the proof: how far each vertex's edges have been read, a vertex that
      realises each lowlink, the newest frame opened no later than each stack
      vertex, and the component each finished vertex went to. */
  datatype Search = Search(
    nextIndex: nat,
    indices: seq<Option<nat>>,
    lowlink: seq<nat>,
    stack: seq<nat>,
    onStack: seq<bool>,
    components: seq<seq<nat>>,
    scanned: seq<nat>,
    lowVertex: seq<nat>,
    owner: seq<nat>,
    home: seq<Option<nat>>)

  // ----- the invariant -----

  function Index(indices: seq<Option<nat>>, v: nat): nat
    requires v < |indices|
  {
    if indices[v].Some? then indices[v].value else 0
  }

  /** Colours, and the stack in discovery order. */
  ghost predicate Shape(n: nat, nextIndex: nat, indices: seq<Option<nat>>, stack: seq<nat>,
                        onStack: seq<bool>, home: seq<Option<nat>>)
  {
    && |indices| == |onStack| == |home| == n
    && (forall i | 0 <= i < |stack| :: stack[i] < n)
    && (forall v | 0 <= v < n :: onStack[v] <==> v in stack)
    && (forall v | 0 <= v < n :: indices[v].Some? <==> onStack[v] || home[v].Some?)
    && (forall v | 0 <= v < n :: !(onStack[v] && home[v].Some?))
    && (forall v | 0 <= v < n && indices[v].Some? :: indices[v].value < nextIndex)
    && (forall i, j | 0 <= i < j < |stack| :: Index(indices, stack[i]) < Index(indices, stack[j]))
  }

  /** Edges already read lead to discovered vertices. */
  ghost predicate ScannedEdges(g: PropagationGraph, indices: seq<Option<nat>>, scanned: seq<nat>)
    requires g.WellFormed()
  {
    && |indices| == |scanned| == g.Count()
    && (forall v | 0 <= v < g.Count() :: g.offsets[v] <= scanned[v] <= g.offsets[v + 1])
    && (forall v | 0 <= v < g.Count() && indices[v].None? :: scanned[v] == g.offsets[v])
    && (forall v, e | 0 <= v < g.Count() && g.offsets[v] <= e < scanned[v] && e < |g.edges| ::
          indices[g.edges[e]].Some?)
  }

  /** What has been emitted: ascending, strongly connected, closed downwards. */
  ghost predicate Emitted(g: PropagationGraph, components: seq<seq<nat>>, home: seq<Option<nat>>)
    requires g.WellFormed()
  {
    && |home| == g.Count()
    && (forall v | 0 <= v < g.Count() && home[v].Some? ::
          home[v].value < |components| && v in components[home[v].value])
    && (forall c, v {:trigger v in components[c]} | 0 <= c < |components| && v in components[c] ::
          v < g.Count() && home[v] == Some(c))
    && (forall c | 0 <= c < |components| :: components[c] != [] && Ascending(components[c]))
    && (forall u, v | 0 <= u < g.Count() && 0 <= v < g.Count() && home[u].Some? && home[u] == home[v] ::
          Reach(g, u, v))
    && (forall u, e | 0 <= u < g.Count() && home[u].Some?
          && g.offsets[u] <= e < g.offsets[u + 1] && e < |g.edges| ::
          home[g.edges[e]].Some? && home[g.edges[e]].value <= home[u].value)
  }

  /** The frames are the open vertices, oldest first. */
  ghost predicate Framed(n: nat, indices: seq<Option<nat>>, stack: seq<nat>, onStack: seq<bool>,
                         scanned: seq<nat>, frames: seq<Frame>)
  {
    && |indices| == |onStack| == |scanned| == n
    && (frames == [] ==> stack == [])
    && (frames != [] ==> stack != [] && stack[0] == frames[0].vertex && frames[0].parent == None)
    && (forall j | 0 <= j < |frames| :: frames[j].vertex < n && onStack[frames[j].vertex])
    && (forall j | 0 <= j < |frames| :: scanned[frames[j].vertex] == frames[j].nextEdge)
    && FrameOrder(indices, frames)
  }

  /** Frames were opened in the order of their indices, each from the one below it. */
  ghost predicate FrameOrder(indices: seq<Option<nat>>, frames: seq<Frame>)
    requires forall j | 0 <= j < |frames| :: frames[j].vertex < |indices|
  {
    && (forall i, j | 0 <= i < j < |frames| ::
          Index(indices, frames[i].vertex) < Index(indices, frames[j].vertex))
    && (forall i, j | 0 <= i < j < i + 2 && j < |frames| :: frames[j].parent == Some(frames[i].vertex))
  }

  /** Every stack vertex belongs to the newest frame opened no later than it, and
      unless it is that frame's own vertex all its edges have been read. */
  ghost predicate Owned(g: PropagationGraph, indices: seq<Option<nat>>, onStack: seq<bool>,
                        scanned: seq<nat>, owner: seq<nat>, frames: seq<Frame>)
    requires g.WellFormed()
  {
    && |indices| == |onStack| == |scanned| == |owner| == g.Count()
    && (forall j | 0 <= j < |frames| :: frames[j].vertex < g.Count())
    && (forall x {:trigger owner[x]} | 0 <= x < g.Count() && onStack[x] ::
          && owner[x] < |frames|
          && Index(indices, frames[owner[x]].vertex) <= Index(indices, x)
          && (x == frames[owner[x]].vertex || scanned[x] == g.offsets[x + 1]))
    && (forall x, j {:trigger owner[x], frames[j]} | 0 <= x < g.Count() && onStack[x] && owner[x] < j < |frames| ::
          Index(indices, x) < Index(indices, frames[j].vertex))
  }

  /** Open vertices reach everything discovered after them that is still on the
      stack, and every stack vertex reaches the frame that owns it. */
  ghost predicate Connected(g: PropagationGraph, indices: seq<Option<nat>>, onStack: seq<bool>,
                            owner: seq<nat>, frames: seq<Frame>)
    requires g.WellFormed()
  {
    && |indices| == |onStack| == |owner| == g.Count()
    && (forall j | 0 <= j < |frames| :: frames[j].vertex < g.Count())
    && (forall j, x | 0 <= j < |frames| && 0 <= x < g.Count() && onStack[x]
          && Index(indices, frames[j].vertex) <= Index(indices, x) :: Reach(g, frames[j].vertex, x))
    && (forall x {:trigger owner[x]} | 0 <= x < g.Count() && onStack[x] && owner[x] < |frames| ::
          Reach(g, x, frames[owner[x]].vertex))
  }

  /** A frame's lowlink is the index of a stack vertex it reaches. */
  ghost predicate LowReached(g: PropagationGraph, indices: seq<Option<nat>>, lowlink: seq<nat>,
                             lowVertex: seq<nat>, onStack: seq<bool>, frames: seq<Frame>)
    requires g.WellFormed()
  {
    && |indices| == |lowlink| == |lowVertex| == |onStack| == g.Count()
    && (forall j | 0 <= j < |frames| ::
          && frames[j].vertex < g.Count()
          && lowlink[frames[j].vertex] <= Index(indices, frames[j].vertex)
          && lowVertex[frames[j].vertex] < g.Count() && onStack[lowVertex[frames[j].vertex]]
          && Index(indices, lowVertex[frames[j].vertex]) == lowlink[frames[j].vertex]
          && Reach(g, frames[j].vertex, lowVertex[frames[j].vertex]))
  }

  /** No edge already read from a vertex leads to a stack vertex below the
      lowlink of the frame that owns it. */
  ghost predicate LowBounds(g: PropagationGraph, indices: seq<Option<nat>>, lowlink: seq<nat>,
                            onStack: seq<bool>, scanned: seq<nat>, owner: seq<nat>, frames: seq<Frame>)
    requires g.WellFormed()
  {
    && |indices| == |lowlink| == |onStack| == |scanned| == |owner| == g.Count()
    && (forall j | 0 <= j < |frames| :: frames[j].vertex < g.Count())
    && (forall x, e {:trigger owner[x], g.edges[e]} | 0 <= x < g.Count() && onStack[x] && owner[x] < |frames|
          && g.offsets[x] <= e < scanned[x] && e < |g.edges| && onStack[g.edges[e]] ::
          lowlink[frames[owner[x]].vertex] <= Index(indices, g.edges[e]))
  }

  ghost predicate Inv(g: PropagationGraph, s: Search, frames: seq<Frame>) {
    && g.WellFormed()
    && Shape(g.Count(), s.nextIndex, s.indices, s.stack, s.onStack, s.home)
    && ScannedEdges(g, s.indices, s.scanned)
    && Emitted(g, s.components, s.home)
    && Framed(g.Count(), s.indices, s.stack, s.onStack, s.scanned, frames)
    && Owned(g, s.indices, s.onStack, s.scanned, s.owner, frames)
    && Connected(g, s.indices, s.onStack, s.owner, frames)
    && LowReached(g, s.indices, s.lowlink, s.lowVertex, s.onStack, frames)
    && LowBounds(g, s.indices, s.lowlink, s.onStack, s.scanned, s.owner, frames)
  }

  function Initial(g: PropagationGraph): Search
    requires g.Count() <= |g.offsets|
  {
    var n := g.Count();
    Search(0, seq(n, _ => None), seq(n, _ => 0), [], seq(n, _ => false), [],
           g.offsets[..n], seq(n, _ => 0), seq(n, _ => 0), seq(n, _ => None))
  }

  lemma InitialInv(g: PropagationGraph)
    requires g.WellFormed()
    ensures Inv(g, Initial(g), [])
  {
  }

  // ----- discovering a vertex -----

  function DiscoverStep(s: Search, v: nat, depth: nat): Search
    requires v < |s.indices| == |s.lowlink| == |s.onStack| == |s.lowVertex| == |s.owner|
  {
    s.(nextIndex := s.nextIndex + 1,
       indices := s.indices[v := Some(s.nextIndex)],
       lowlink := s.lowlink[v := s.nextIndex],
       stack := s.stack + [v],
       onStack := s.onStack[v := true],
       lowVertex := s.lowVertex[v := v],
       owner := s.owner[v := depth])
  }

  /** The frames after v was discovered from the newest frame, or as a root. */
  function Pushed(g: PropagationGraph, frames: seq<Frame>, v: nat): seq<Frame>
    requires v < |g.offsets|
  {
    frames + [Frame(v, g.offsets[v], if frames == [] then None else Some(frames[|frames| - 1].vertex))]
  }

  ghost predicate CanDiscover(g: PropagationGraph, s: Search, frames: seq<Frame>, v: nat) {
    && Inv(g, s, frames) && v < g.Count() && s.indices[v].None?
    && (frames != [] ==> Reach(g, frames[|frames| - 1].vertex, v))
  }

  lemma DiscoverShape(n: nat, nextIndex: nat, indices: seq<Option<nat>>, stack: seq<nat>,
                      onStack: seq<bool>, home: seq<Option<nat>>, v: nat)
    requires Shape(n, nextIndex, indices, stack, onStack, home) && v < n && indices[v].None?
    ensures Shape(n, nextIndex + 1, indices[v := Some(nextIndex)], stack + [v], onStack[v := true], home)
  {
    var stack' := stack + [v];
    forall u | 0 <= u < n
      ensures onStack[v := true][u] <==> u in stack'
    {
      assert u in stack' <==> u in stack || u == v;
    }
    assert forall i | 0 <= i < |stack| :: stack[i] in stack && onStack[stack[i]] && stack[i] != v;
  }

  /** Vertices on the stack have an index below the next one. */
  ghost predicate Indexed(n: nat, nextIndex: nat, indices: seq<Option<nat>>, onStack: seq<bool>) {
    && |indices| == |onStack| == n
    && (forall x | 0 <= x < n && onStack[x] :: indices[x].Some? && indices[x].value < nextIndex)
  }

  lemma ShapeIndexed(n: nat, nextIndex: nat, indices: seq<Option<nat>>, stack: seq<nat>,
                     onStack: seq<bool>, home: seq<Option<nat>>)
    requires Shape(n, nextIndex, indices, stack, onStack, home)
    ensures Indexed(n, nextIndex, indices, onStack)
  {
  }

  lemma DiscoverOrder(indices: seq<Option<nat>>, frames: seq<Frame>, v: nat, index: nat, frame: Frame)
    requires v < |indices| && frame.vertex == v
    requires forall j | 0 <= j < |frames| ::
               frames[j].vertex < |indices| && frames[j].vertex != v && Index(indices, frames[j].vertex) < index
    requires FrameOrder(indices, frames)
    requires frames != [] ==> frame.parent == Some(frames[|frames| - 1].vertex)
    ensures FrameOrder(indices[v := Some(index)], frames + [frame])
  {
  }

  lemma DiscoverFramed(g: PropagationGraph, s: Search, frames: seq<Frame>, v: nat)
    requires g.WellFormed() && v < g.Count() && |s.scanned| == g.Count()
    requires Indexed(g.Count(), s.nextIndex, s.indices, s.onStack)
    requires s.indices[v].None? && s.scanned[v] == g.offsets[v]
    requires Framed(g.Count(), s.indices, s.stack, s.onStack, s.scanned, frames)
    ensures Framed(g.Count(), s.indices[v := Some(s.nextIndex)], s.stack + [v], s.onStack[v := true],
                   s.scanned, Pushed(g, frames, v))
  {
    hide FrameOrder;
    var pushed := Pushed(g, frames, v);
    DiscoverOrder(s.indices, frames, v, s.nextIndex, pushed[|frames|]);
    assert forall j | 0 <= j < |frames| :: pushed[j] == frames[j] && frames[j].vertex != v;
  }

  lemma DiscoverOwned(g: PropagationGraph, s: Search, frames: seq<Frame>, v: nat)
    requires g.WellFormed() && v < g.Count()
    requires Indexed(g.Count(), s.nextIndex, s.indices, s.onStack)
    requires s.indices[v].None?
    requires Owned(g, s.indices, s.onStack, s.scanned, s.owner, frames)
    requires forall j | 0 <= j < |frames| :: s.onStack[frames[j].vertex]
    ensures Owned(g, s.indices[v := Some(s.nextIndex)], s.onStack[v := true], s.scanned,
                  s.owner[v := |frames|], Pushed(g, frames, v))
  {
    assert v < |g.offsets| && |g.offsets| == g.Count() + 1;
    hide PropagationGraph.WellFormed;
    var pushed, indices := Pushed(g, frames, v), s.indices[v := Some(s.nextIndex)];
    assert forall j | 0 <= j < |frames| :: pushed[j] == frames[j] && frames[j].vertex != v;
    assert forall x | 0 <= x < g.Count() && s.onStack[x] :: Index(indices, x) == Index(s.indices, x) < s.nextIndex;
  }

  /** Every open vertex reaches the vertex to be discovered. */
  lemma OpenReach(g: PropagationGraph, s: Search, frames: seq<Frame>, v: nat, j: nat)
    requires CanDiscover(g, s, frames, v) && j < |frames|
    ensures Reach(g, frames[j].vertex, v)
  {
    hide Inv;
    if j < |frames| - 1 {
      FramePair(g, s, frames, j, |frames| - 1);
      FrameFacts(g, s, frames, j);
      ReachTrans(g, frames[j].vertex, frames[|frames| - 1].vertex, v);
    }
  }

  lemma DiscoverForward(g: PropagationGraph, indices: seq<Option<nat>>, index: nat, onStack: seq<bool>,
                        frames: seq<Frame>, v: nat, frame: Frame)
    requires v < g.Count() && g.WellFormed() && frame.vertex == v
    requires Indexed(g.Count(), index, indices, onStack) && indices[v].None?
    requires forall j | 0 <= j < |frames| :: frames[j].vertex < g.Count() && onStack[frames[j].vertex]
    requires forall j | 0 <= j < |frames| :: Reach(g, frames[j].vertex, v)
    requires forall j, x | 0 <= j < |frames| && 0 <= x < g.Count() && onStack[x]
               && Index(indices, frames[j].vertex) <= Index(indices, x) :: Reach(g, frames[j].vertex, x)
    ensures var pushed, indices' := frames + [frame], indices[v := Some(index)];
            forall j, x | 0 <= j < |pushed| && 0 <= x < g.Count() && onStack[v := true][x]
              && Index(indices', pushed[j].vertex) <= Index(indices', x) :: Reach(g, pushed[j].vertex, x)
  {
    assert Reach(g, v, v);
    hide Reach, PropagationGraph.WellFormed;
    var pushed, indices' := frames + [frame], indices[v := Some(index)];
    forall j, x | 0 <= j < |pushed| && 0 <= x < g.Count() && onStack[v := true][x]
                  && Index(indices', pushed[j].vertex) <= Index(indices', x)
      ensures Reach(g, pushed[j].vertex, x)
    {
      if j < |frames| {
        assert pushed[j] == frames[j] && onStack[frames[j].vertex];
      }
    }
  }

  lemma DiscoverConnected(g: PropagationGraph, s: Search, frames: seq<Frame>, v: nat)
    requires g.WellFormed() && v < g.Count()
    requires Indexed(g.Count(), s.nextIndex, s.indices, s.onStack) && s.indices[v].None?
    requires Connected(g, s.indices, s.onStack, s.owner, frames)
    requires forall x | 0 <= x < g.Count() && s.onStack[x] :: s.owner[x] < |frames|
    requires forall j | 0 <= j < |frames| :: s.onStack[frames[j].vertex] && Reach(g, frames[j].vertex, v)
    ensures Connected(g, s.indices[v := Some(s.nextIndex)], s.onStack[v := true],
                      s.owner[v := |frames|], Pushed(g, frames, v))
  {
    assert Reach(g, v, v) && v < |g.offsets|;
    hide Reach, Indexed, PropagationGraph.WellFormed;
    DiscoverForward(g, s.indices, s.nextIndex, s.onStack, frames, v, Pushed(g, frames, v)[|frames|]);
  }

  lemma DiscoverReached(g: PropagationGraph, s: Search, frames: seq<Frame>, v: nat)
    requires CanDiscover(g, s, frames, v)
    ensures var t := DiscoverStep(s, v, |frames|);
            LowReached(g, t.indices, t.lowlink, t.lowVertex, t.onStack, Pushed(g, frames, v))
  {
    hide Emitted, Connected, LowBounds, Owned, FrameOrder;
  }

  lemma DiscoverBounds(g: PropagationGraph, s: Search, frames: seq<Frame>, v: nat)
    requires CanDiscover(g, s, frames, v)
    ensures var t := DiscoverStep(s, v, |frames|);
            LowBounds(g, t.indices, t.lowlink, t.onStack, t.scanned, t.owner, Pushed(g, frames, v))
  {
    hide Emitted, Connected, LowReached, FrameOrder;
  }

  lemma OwnersAreFrames(g: PropagationGraph, s: Search, frames: seq<Frame>)
    requires g.WellFormed() && Owned(g, s.indices, s.onStack, s.scanned, s.owner, frames)
    ensures |s.onStack| == |s.owner| == g.Count()
    ensures forall x | 0 <= x < g.Count() && s.onStack[x] :: s.owner[x] < |frames|
  {
  }

  lemma DiscoverKeeps(g: PropagationGraph, s: Search, frames: seq<Frame>, v: nat)
    requires CanDiscover(g, s, frames, v)
    ensures Inv(g, DiscoverStep(s, v, |frames|), Pushed(g, frames, v))
  {
    hide Emitted, Owned, Connected, LowReached, LowBounds, FrameOrder;
    DiscoverShape(g.Count(), s.nextIndex, s.indices, s.stack, s.onStack, s.home, v);
    ShapeIndexed(g.Count(), s.nextIndex, s.indices, s.stack, s.onStack, s.home);
    DiscoverFramed(g, s, frames, v);
    DiscoverOwned(g, s, frames, v);
    forall j | 0 <= j < |frames|
      ensures Reach(g, frames[j].vertex, v)
    {
      OpenReach(g, s, frames, v, j);
    }
    OwnersAreFrames(g, s, frames);
    DiscoverConnected(g, s, frames, v);
    DiscoverReached(g, s, frames, v);
    DiscoverBounds(g, s, frames, v);
  }

  // ----- reading an edge -----

  /** `lowlink[v] = min(lowlink[v], indices[y])`. */
  function LowerStep(s: Search, v: nat, y: nat): Search
    requires v < |s.lowlink| == |s.lowVertex| && y < |s.indices|
  {
    if Index(s.indices, y) < s.lowlink[v]
    then s.(lowlink := s.lowlink[v := Index(s.indices, y)], lowVertex := s.lowVertex[v := y])
    else s
  }

  lemma LowerLow(g: PropagationGraph, s: Search, frames: seq<Frame>, j: nat, y: nat)
    requires g.WellFormed() && j < |frames|
    requires LowReached(g, s.indices, s.lowlink, s.lowVertex, s.onStack, frames)
    requires LowBounds(g, s.indices, s.lowlink, s.onStack, s.scanned, s.owner, frames)
    requires y < g.Count() && s.onStack[y] && Reach(g, frames[j].vertex, y)
    ensures var t := LowerStep(s, frames[j].vertex, y);
            && LowReached(g, t.indices, t.lowlink, t.lowVertex, t.onStack, frames)
            && LowBounds(g, t.indices, t.lowlink, t.onStack, t.scanned, t.owner, frames)
  {
  }

  lemma LowerKeeps(g: PropagationGraph, s: Search, frames: seq<Frame>, j: nat, y: nat)
    requires Inv(g, s, frames) && j < |frames|
    requires y < g.Count() && s.onStack[y] && Reach(g, frames[j].vertex, y)
    ensures Inv(g, LowerStep(s, frames[j].vertex, y), frames)
  {
    LowerLow(g, s, frames, j, y);
  }

  function AdvanceStep(s: Search, v: nat): Search
    requires v < |s.scanned|
  {
    s.(scanned := s.scanned[v := s.scanned[v] + 1])
  }

  function Advanced(frames: seq<Frame>, j: nat): seq<Frame>
    requires j < |frames|
  {
    frames[j := frames[j].(nextEdge := frames[j].nextEdge + 1)]
  }

  ghost predicate CanAdvance(g: PropagationGraph, s: Search, frames: seq<Frame>, j: nat) {
    && Inv(g, s, frames) && j < |frames|
    && frames[j].nextEdge < g.offsets[frames[j].vertex + 1]
    && frames[j].nextEdge < |g.edges|
    && s.indices[g.edges[frames[j].nextEdge]].Some?
    && (s.onStack[g.edges[frames[j].nextEdge]] ==>
          s.lowlink[frames[j].vertex] <= Index(s.indices, g.edges[frames[j].nextEdge]))
  }

  lemma AdvanceScanned(g: PropagationGraph, indices: seq<Option<nat>>, scanned: seq<nat>, v: nat)
    requires g.WellFormed() && ScannedEdges(g, indices, scanned)
    requires v < g.Count() && indices[v].Some? && scanned[v] < g.offsets[v + 1] && scanned[v] < |g.edges|
    requires indices[g.edges[scanned[v]]].Some?
    ensures ScannedEdges(g, indices, scanned[v := scanned[v] + 1])
  {
  }

  lemma AdvanceFramed(n: nat, s: Search, frames: seq<Frame>, j: nat)
    requires j < |frames| && Framed(n, s.indices, s.stack, s.onStack, s.scanned, frames)
    ensures Framed(n, s.indices, s.stack, s.onStack, AdvanceStep(s, frames[j].vertex).scanned, Advanced(frames, j))
  {
    var moved := Advanced(frames, j);
    assert forall k | 0 <= k < |frames| ::
        moved[k].vertex == frames[k].vertex && moved[k].parent == frames[k].parent;
  }

  lemma AdvanceOwned(g: PropagationGraph, s: Search, frames: seq<Frame>, j: nat)
    requires g.WellFormed() && j < |frames|
    requires Owned(g, s.indices, s.onStack, s.scanned, s.owner, frames)
    requires s.scanned[frames[j].vertex] < g.offsets[frames[j].vertex + 1]
    requires Connected(g, s.indices, s.onStack, s.owner, frames)
    requires LowReached(g, s.indices, s.lowlink, s.lowVertex, s.onStack, frames)
    ensures var t, moved := AdvanceStep(s, frames[j].vertex), Advanced(frames, j);
            && Owned(g, t.indices, t.onStack, t.scanned, t.owner, moved)
            && Connected(g, t.indices, t.onStack, t.owner, moved)
            && LowReached(g, t.indices, t.lowlink, t.lowVertex, t.onStack, moved)
  {
    var moved := Advanced(frames, j);
    assert forall k | 0 <= k < |frames| :: moved[k].vertex == frames[k].vertex;
  }

  lemma AdvanceBounds(g: PropagationGraph, s: Search, frames: seq<Frame>, j: nat)
    requires g.WellFormed() && j < |frames| && frames[j].nextEdge < |g.edges|
    requires LowBounds(g, s.indices, s.lowlink, s.onStack, s.scanned, s.owner, frames)
    requires s.scanned[frames[j].vertex] == frames[j].nextEdge
    requires s.onStack[frames[j].vertex] && s.owner[frames[j].vertex] == j
    requires s.onStack[g.edges[frames[j].nextEdge]] ==>
               s.lowlink[frames[j].vertex] <= Index(s.indices, g.edges[frames[j].nextEdge])
    ensures var t, moved := AdvanceStep(s, frames[j].vertex), Advanced(frames, j);
            LowBounds(g, t.indices, t.lowlink, t.onStack, t.scanned, t.owner, moved)
  {
    var moved := Advanced(frames, j);
    assert forall k | 0 <= k < |frames| :: moved[k].vertex == frames[k].vertex;
  }

  /** An open vertex is owned by its own frame. */
  lemma OwnsItself(g: PropagationGraph, s: Search, frames: seq<Frame>, j: nat)
    requires Inv(g, s, frames) && j < |frames|
    ensures s.owner[frames[j].vertex] == j
  {
    var v := frames[j].vertex;
    assert s.onStack[v] && s.owner[v] < |frames|;
  }

  lemma AdvanceKeeps(g: PropagationGraph, s: Search, frames: seq<Frame>, j: nat)
    requires CanAdvance(g, s, frames, j)
    ensures Inv(g, AdvanceStep(s, frames[j].vertex), Advanced(frames, j))
  {
    OwnsItself(g, s, frames, j);
    AdvanceScanned(g, s.indices, s.scanned, frames[j].vertex);
    AdvanceFramed(g.Count(), s, frames, j);
    AdvanceOwned(g, s, frames, j);
    AdvanceBounds(g, s, frames, j);
  }

  // ----- closing a frame -----

  ghost predicate CanClose(g: PropagationGraph, s: Search, frames: seq<Frame>) {
    && Inv(g, s, frames) && frames != []
    && frames[|frames| - 1].nextEdge == g.offsets[frames[|frames| - 1].vertex + 1]
  }

  function Reowned(s: Search, depth: nat): Search {
    s.(owner := seq(|s.owner|, x requires 0 <= x < |s.owner| => if s.owner[x] > depth then depth else s.owner[x]))
  }

  lemma CloseConnected(g: PropagationGraph, s: Search, frames: seq<Frame>)
    requires CanClose(g, s, frames) && |frames| > 1
    requires s.lowlink[frames[|frames| - 1].vertex] < Index(s.indices, frames[|frames| - 1].vertex)
    ensures forall x | 0 <= x < g.Count() && s.onStack[x] && s.owner[x] == |frames| - 1 ::
              Reach(g, x, frames[|frames| - 2].vertex)
  {
    var last := |frames| - 1;
    var v := frames[last].vertex;
    var y := s.lowVertex[v];
    assert s.owner[y] < last;
    var z, p := frames[s.owner[y]].vertex, frames[last - 1].vertex;
    assert Index(s.indices, z) <= Index(s.indices, p);
    assert Reach(g, z, p);
    ReachTrans(g, v, y, z);
    ReachTrans(g, v, z, p);
    forall x | 0 <= x < g.Count() && s.onStack[x] && s.owner[x] == last
      ensures Reach(g, x, p)
    {
      ReachTrans(g, x, v, p);
    }
  }

  /** The oldest frame is always the root of its component. */
  lemma OldestIsRoot(g: PropagationGraph, s: Search, frames: seq<Frame>)
    requires Inv(g, s, frames) && frames != []
    ensures s.lowlink[frames[0].vertex] == Index(s.indices, frames[0].vertex)
  {
    var y := s.lowVertex[frames[0].vertex];
    assert s.onStack[y] && y in s.stack;
    var i :| 0 <= i < |s.stack| && s.stack[i] == y;
  }

  lemma CloseFramed(g: PropagationGraph, s: Search, frames: seq<Frame>)
    requires g.WellFormed() && |frames| > 1
    requires Framed(g.Count(), s.indices, s.stack, s.onStack, s.scanned, frames)
    requires LowReached(g, s.indices, s.lowlink, s.lowVertex, s.onStack, frames)
    ensures Framed(g.Count(), s.indices, s.stack, s.onStack, s.scanned, frames[..|frames| - 1])
    ensures LowReached(g, s.indices, s.lowlink, s.lowVertex, s.onStack, frames[..|frames| - 1])
  {
  }

  lemma CloseOwned(g: PropagationGraph, s: Search, frames: seq<Frame>)
    requires g.WellFormed() && |frames| > 1
    requires Owned(g, s.indices, s.onStack, s.scanned, s.owner, frames)
    requires s.scanned[frames[|frames| - 1].vertex] == g.offsets[frames[|frames| - 1].vertex + 1]
    requires Index(s.indices, frames[|frames| - 2].vertex) < Index(s.indices, frames[|frames| - 1].vertex)
    ensures var t := Reowned(s, |frames| - 2);
            Owned(g, t.indices, t.onStack, t.scanned, t.owner, frames[..|frames| - 1])
  {
    assert forall x | 0 <= x < g.Count() && s.onStack[x] :: s.owner[x] < |frames|;
  }

  lemma CloseBounds(g: PropagationGraph, s: Search, frames: seq<Frame>)
    requires g.WellFormed() && |frames| > 1
    requires |s.owner| == |s.onStack| == g.Count()
    requires forall x | 0 <= x < g.Count() && s.onStack[x] :: s.owner[x] < |frames|
    requires LowBounds(g, s.indices, s.lowlink, s.onStack, s.scanned, s.owner, frames)
    requires s.lowlink[frames[|frames| - 2].vertex] <= s.lowlink[frames[|frames| - 1].vertex]
    ensures var t := Reowned(s, |frames| - 2);
            LowBounds(g, t.indices, t.lowlink, t.onStack, t.scanned, t.owner, frames[..|frames| - 1])
  {
  }

  lemma CloseReach(g: PropagationGraph, s: Search, frames: seq<Frame>)
    requires g.WellFormed() && |frames| > 1
    requires Connected(g, s.indices, s.onStack, s.owner, frames)
    requires forall x | 0 <= x < g.Count() && s.onStack[x] :: s.owner[x] < |frames|
    requires forall x | 0 <= x < g.Count() && s.onStack[x] && s.owner[x] == |frames| - 1 ::
               Reach(g, x, frames[|frames| - 2].vertex)
    ensures var t := Reowned(s, |frames| - 2);
            Connected(g, t.indices, t.onStack, t.owner, frames[..|frames| - 1])
  {
  }

  /** Closing a vertex that is not the root of its component hands what it owned
      to its parent. */
  lemma CloseKeeps(g: PropagationGraph, s: Search, frames: seq<Frame>)
    requires CanClose(g, s, frames) && |frames| > 1
    requires s.lowlink[frames[|frames| - 1].vertex] < Index(s.indices, frames[|frames| - 1].vertex)
    requires s.lowlink[frames[|frames| - 2].vertex] <= s.lowlink[frames[|frames| - 1].vertex]
    ensures Inv(g, Reowned(s, |frames| - 2), frames[..|frames| - 1])
  {
    CloseFramed(g, s, frames);
    CloseOwned(g, s, frames);
    CloseBounds(g, s, frames);
    CloseConnected(g, s, frames);
    CloseReach(g, s, frames);
  }

  // ----- emitting a component -----

  /** The stack is cut at position i; everything above becomes `component`. */
  function EmitStep(s: Search, i: nat, component: seq<nat>): Search
    requires i <= |s.stack|
  {
    s.(stack := s.stack[..i],
       onStack := seq(|s.onStack|, u requires 0 <= u < |s.onStack| => s.onStack[u] && u !in component),
       home := seq(|s.home|, u requires 0 <= u < |s.home| =>
                 if u in component then Some(|s.components|) else s.home[u]),
       components := s.components + [component])
  }

  /** The newest frame's vertex is the root of its component, and `component` is
      an ascending listing of the stack from that vertex up. */
  ghost predicate CanEmit(g: PropagationGraph, s: Search, frames: seq<Frame>, i: nat, component: seq<nat>) {
    && CanClose(g, s, frames)
    && s.lowlink[frames[|frames| - 1].vertex] == Index(s.indices, frames[|frames| - 1].vertex)
    && i < |s.stack| && s.stack[i] == frames[|frames| - 1].vertex
    && Ascending(component)
    && (forall u :: u in component <==> u in s.stack[i..])
  }

  /** On the stack, being above position i is having at least its index. */
  lemma AbovePosition(n: nat, nextIndex: nat, indices: seq<Option<nat>>, stack: seq<nat>,
                      onStack: seq<bool>, home: seq<Option<nat>>, i: nat, u: nat)
    requires Shape(n, nextIndex, indices, stack, onStack, home)
    requires i < |stack| && u < n && onStack[u]
    ensures u in stack[i..] <==> Index(indices, stack[i]) <= Index(indices, u)
    ensures u in stack[..i] <==> !(u in stack[i..])
  {
    var k :| 0 <= k < |stack| && stack[k] == u;
    if k >= i {
      assert stack[i..][k - i] == u;
    } else {
      assert stack[..i][k] == u;
    }
  }

  /** `AbovePosition` for every stack vertex, in terms of the component. */
  lemma Segment(g: PropagationGraph, s: Search, frames: seq<Frame>, i: nat, component: seq<nat>)
    requires CanEmit(g, s, frames, i, component)
    ensures forall u | u in component :: u < g.Count() && s.onStack[u]
    ensures forall u | 0 <= u < g.Count() && s.onStack[u] ::
              && (u in component <==> Index(s.indices, s.stack[i]) <= Index(s.indices, u))
              && (u in component <==> u !in s.stack[..i])
  {
    forall u | u in component
      ensures u < g.Count() && s.onStack[u]
    {
      var k :| 0 <= k < |s.stack[i..]| && s.stack[i..][k] == u;
      assert s.stack[i + k] == u && u in s.stack;
    }
    forall u | 0 <= u < g.Count() && s.onStack[u]
      ensures u in component <==> Index(s.indices, s.stack[i]) <= Index(s.indices, u)
      ensures u in component <==> u !in s.stack[..i]
    {
      AbovePosition(g.Count(), s.nextIndex, s.indices, s.stack, s.onStack, s.home, i, u);
    }
  }

  lemma EmitShape(n: nat, s: Search, i: nat, component: seq<nat>)
    requires Shape(n, s.nextIndex, s.indices, s.stack, s.onStack, s.home) && i < |s.stack|
    requires forall u | u in component :: u < n && s.onStack[u]
    requires forall u | 0 <= u < n && s.onStack[u] :: u in component <==> u !in s.stack[..i]
    ensures var t := EmitStep(s, i, component);
            Shape(n, t.nextIndex, t.indices, t.stack, t.onStack, t.home)
  {
    var t := EmitStep(s, i, component);
    forall v | 0 <= v < n
      ensures t.onStack[v] <==> v in t.stack
    {
      assert v in t.stack ==> v in s.stack;
    }
  }

  lemma EmitFramed(n: nat, s: Search, frames: seq<Frame>, i: nat, component: seq<nat>)
    requires Shape(n, s.nextIndex, s.indices, s.stack, s.onStack, s.home) && i < |s.stack|
    requires Framed(n, s.indices, s.stack, s.onStack, s.scanned, frames) && frames != []
    requires s.stack[i] == frames[|frames| - 1].vertex
    requires forall u | 0 <= u < n && s.onStack[u] ::
               u in component <==> Index(s.indices, s.stack[i]) <= Index(s.indices, u)
    ensures var t := EmitStep(s, i, component);
            Framed(n, t.indices, t.stack, t.onStack, t.scanned, frames[..|frames| - 1])
  {
    var t, left := EmitStep(s, i, component), frames[..|frames| - 1];
    assert forall j | 0 <= j < |left| :: left[j] == frames[j];
    assert forall j | 0 <= j < |left| :: left[j].vertex !in component;
    if |frames| == 1 {
      assert s.stack[0] == s.stack[i];
      assert i == 0;
    } else {
      assert i != 0;
    }
  }

  lemma EmitOwned(g: PropagationGraph, s: Search, frames: seq<Frame>, i: nat, component: seq<nat>)
    requires CanEmit(g, s, frames, i, component)
    requires forall u | 0 <= u < g.Count() && s.onStack[u] ::
               u in component <==> Index(s.indices, s.stack[i]) <= Index(s.indices, u)
    ensures forall u | 0 <= u < g.Count() && s.onStack[u] :: u in component <==> s.owner[u] == |frames| - 1
  {
    forall u | 0 <= u < g.Count() && s.onStack[u]
      ensures u in component <==> s.owner[u] == |frames| - 1
    {
      assert s.owner[u] < |frames|;
    }
  }

  lemma EmitRest(g: PropagationGraph, s: Search, frames: seq<Frame>, i: nat, component: seq<nat>)
    requires g.WellFormed() && frames != [] && i < |s.stack|
    requires Owned(g, s.indices, s.onStack, s.scanned, s.owner, frames)
    requires Connected(g, s.indices, s.onStack, s.owner, frames)
    requires LowBounds(g, s.indices, s.lowlink, s.onStack, s.scanned, s.owner, frames)
    requires forall u | 0 <= u < g.Count() && s.onStack[u] :: u in component <==> s.owner[u] == |frames| - 1
    ensures var t, left := EmitStep(s, i, component), frames[..|frames| - 1];
            && Owned(g, t.indices, t.onStack, t.scanned, t.owner, left)
            && Connected(g, t.indices, t.onStack, t.owner, left)
            && LowBounds(g, t.indices, t.lowlink, t.onStack, t.scanned, t.owner, left)
  {
    var left := frames[..|frames| - 1];
    assert forall j | 0 <= j < |left| :: left[j] == frames[j];
  }

  lemma EmitLow(g: PropagationGraph, s: Search, frames: seq<Frame>, i: nat, component: seq<nat>)
    requires g.WellFormed() && frames != [] && i < |s.stack|
    requires Framed(g.Count(), s.indices, s.stack, s.onStack, s.scanned, frames)
    requires LowReached(g, s.indices, s.lowlink, s.lowVertex, s.onStack, frames)
    requires s.stack[i] == frames[|frames| - 1].vertex
    requires forall u | 0 <= u < g.Count() && s.onStack[u] ::
               u in component <==> Index(s.indices, s.stack[i]) <= Index(s.indices, u)
    ensures var t := EmitStep(s, i, component);
            LowReached(g, t.indices, t.lowlink, t.lowVertex, t.onStack, frames[..|frames| - 1])
  {
    var left := frames[..|frames| - 1];
    assert forall j | 0 <= j < |left| :: left[j] == frames[j];
  }

  /** No edge leaves the component except into components emitted earlier. */
  lemma EmitClosed(g: PropagationGraph, s: Search, frames: seq<Frame>, i: nat, component: seq<nat>, u: nat, e: nat)
    requires CanEmit(g, s, frames, i, component)
    requires u < g.Count() && s.onStack[u] && s.owner[u] == |frames| - 1
    requires g.offsets[u] <= e < g.offsets[u + 1] && e < |g.edges|
    ensures s.home[g.edges[e]].Some? || (s.onStack[g.edges[e]]
              && Index(s.indices, s.stack[i]) <= Index(s.indices, g.edges[e]))
  {
    assert e < s.scanned[u];
    assert s.indices[g.edges[e]].Some?;
  }

  /** The component is strongly connected. */
  lemma EmitConnected(g: PropagationGraph, s: Search, frames: seq<Frame>, i: nat, component: seq<nat>, u: nat, w: nat)
    requires CanEmit(g, s, frames, i, component)
    requires u < g.Count() && s.onStack[u] && s.owner[u] == |frames| - 1
    requires w < g.Count() && s.onStack[w] && s.owner[w] == |frames| - 1
    ensures Reach(g, u, w)
  {
    var v := frames[|frames| - 1].vertex;
    assert Reach(g, u, v);
    assert Reach(g, v, w);
    ReachTrans(g, u, v, w);
  }

  lemma EmitEmitted(g: PropagationGraph, components: seq<seq<nat>>, home: seq<Option<nat>>, component: seq<nat>,
                    home': seq<Option<nat>>)
    requires g.WellFormed() && Emitted(g, components, home)
    requires component != [] && Ascending(component)
    requires forall u | u in component :: u < g.Count() && home[u].None?
    requires |home'| == g.Count()
    requires forall u | 0 <= u < g.Count() :: home'[u] == if u in component then Some(|components|) else home[u]
    requires forall u, e | 0 <= u < g.Count() && u in component
                           && g.offsets[u] <= e < g.offsets[u + 1] && e < |g.edges| ::
               home[g.edges[e]].Some? || g.edges[e] in component
    requires forall u, w | u in component && w in component :: Reach(g, u, w)
    ensures Emitted(g, components + [component], home')
  {
    var all := components + [component];
    forall c: nat, v: nat | c < |all| && v in all[c]
      ensures v < g.Count() && home'[v] == Some(c)
    {
      if c < |components| {
        assert v in components[c];
        assert v < g.Count() && home[v] == Some(c);
      } else {
        assert v in component;
      }
    }
  }

  lemma EmitKeeps(g: PropagationGraph, s: Search, frames: seq<Frame>, i: nat, component: seq<nat>)
    requires CanEmit(g, s, frames, i, component)
    ensures Inv(g, EmitStep(s, i, component), frames[..|frames| - 1])
  {
    Segment(g, s, frames, i, component);
    EmitShape(g.Count(), s, i, component);
    EmitFramed(g.Count(), s, frames, i, component);
    EmitOwned(g, s, frames, i, component);
    EmitRest(g, s, frames, i, component);
    EmitLow(g, s, frames, i, component);
    EmitComponents(g, s, frames, i, component);
  }

  lemma EmitComponents(g: PropagationGraph, s: Search, frames: seq<Frame>, i: nat, component: seq<nat>)
    requires CanEmit(g, s, frames, i, component)
    ensures Emitted(g, EmitStep(s, i, component).components, EmitStep(s, i, component).home)
  {
    hide Connected, LowReached, LowBounds, Owned;
    Segment(g, s, frames, i, component);
    EmitOwned(g, s, frames, i, component);
    forall u, e | 0 <= u < g.Count() && u in component && g.offsets[u] <= e < g.offsets[u + 1] && e < |g.edges|
      ensures s.home[g.edges[e]].Some? || g.edges[e] in component
    {
      EmitClosed(g, s, frames, i, component, u, e);
    }
    forall u, w | u in component && w in component
      ensures Reach(g, u, w)
    {
      EmitConnected(g, s, frames, i, component, u, w);
    }
    assert s.stack[i] == s.stack[i..][0] && s.stack[i] in component;
    EmitEmitted(g, s.components, s.home, component, EmitStep(s, i, component).home);
  }

  // ----- one turn of the loop -----

  function Top(frames: seq<Frame>): Frame
    requires frames != []
  {
    frames[|frames| - 1]
  }

  lemma Sizes(g: PropagationGraph, s: Search, frames: seq<Frame>)
    requires Inv(g, s, frames)
    ensures g.WellFormed() && |g.offsets| == g.Count() + 1
    ensures |s.indices| == |s.lowlink| == |s.onStack| == |s.scanned| == |s.lowVertex| == |s.owner| == |s.home|
            == g.Count()
  {
  }

  lemma FrameFacts(g: PropagationGraph, s: Search, frames: seq<Frame>, j: nat)
    requires Inv(g, s, frames) && j < |frames|
    ensures g.WellFormed() && |g.offsets| == g.Count() + 1
    ensures |s.indices| == |s.lowlink| == |s.onStack| == |s.scanned| == |s.lowVertex| == |s.owner| == |s.home|
            == g.Count()
    ensures var v := frames[j].vertex;
            && v < g.Count() && s.indices[v].Some? && s.onStack[v]
            && g.offsets[v] <= frames[j].nextEdge == s.scanned[v] <= g.offsets[v + 1]
            && s.lowVertex[v] < g.Count() && s.onStack[s.lowVertex[v]] && s.indices[s.lowVertex[v]].Some?
            && Index(s.indices, s.lowVertex[v]) == s.lowlink[v] <= Index(s.indices, v) < s.nextIndex
            && Reach(g, v, s.lowVertex[v])
  {
  }

  lemma FramePair(g: PropagationGraph, s: Search, frames: seq<Frame>, i: nat, j: nat)
    requires Inv(g, s, frames) && i < j < |frames|
    ensures var u, v := frames[i].vertex, frames[j].vertex;
            && u < |s.indices| && v < |s.indices|
            && Index(s.indices, u) < Index(s.indices, v)
            && Reach(g, u, v)
            && (j == i + 1 ==> frames[j].parent == Some(u))
  {
    FrameFacts(g, s, frames, i);
    FrameFacts(g, s, frames, j);
  }

  /** A frame's parent is the vertex of the frame below it. */
  lemma FrameParent(g: PropagationGraph, s: Search, frames: seq<Frame>)
    requires Inv(g, s, frames) && frames != []
    ensures Top(frames).parent == if |frames| == 1 then None else Some(frames[|frames| - 2].vertex)
    ensures |frames| > 1 ==> frames[|frames| - 2].vertex < g.Count()
  {
  }

  lemma StackFacts(g: PropagationGraph, s: Search, frames: seq<Frame>)
    requires Inv(g, s, frames)
    ensures NoDuplicates(s.stack)
    ensures |s.onStack| == |s.home| == |s.indices| == g.Count()
    ensures forall i | 0 <= i < |s.stack| :: s.stack[i] < g.Count()
    ensures forall j | 0 <= j < |frames| :: frames[j].vertex in s.stack
  {
    assert forall i | 0 <= i < |s.stack| :: s.stack[i] in s.stack;
  }

  /** The newest frame's next edge leads to an undiscovered vertex. */
  lemma TurnDiscover(g: PropagationGraph, s: Search, frames: seq<Frame>, next: nat)
    requires Inv(g, s, frames) && frames != []
    requires Top(frames).nextEdge < g.offsets[Top(frames).vertex + 1] && Top(frames).nextEdge < |g.edges|
    requires next == g.edges[Top(frames).nextEdge] && s.indices[next].None?
    ensures Inv(g, AdvanceStep(DiscoverStep(s, next, |frames|), Top(frames).vertex),
                Advanced(Pushed(g, frames, next), |frames| - 1))
  {
    hide Inv;
    FrameFacts(g, s, frames, |frames| - 1);
    var v := Top(frames).vertex;
    ReachSlot(g, v, Top(frames).nextEdge);
    DiscoverKeeps(g, s, frames, next);
    var t, pushed := DiscoverStep(s, next, |frames|), Pushed(g, frames, next);
    assert pushed[|frames| - 1] == Top(frames);
    assert v != next && t.lowlink[v] == s.lowlink[v] <= Index(s.indices, v) < s.nextIndex;
    AdvanceKeeps(g, t, pushed, |frames| - 1);
  }

  /** The newest frame's next edge leads to a vertex already discovered. */
  lemma TurnSeen(g: PropagationGraph, s: Search, frames: seq<Frame>, next: nat)
    requires Inv(g, s, frames) && frames != []
    requires Top(frames).nextEdge < g.offsets[Top(frames).vertex + 1] && Top(frames).nextEdge < |g.edges|
    requires next == g.edges[Top(frames).nextEdge] && s.indices[next].Some?
    ensures Inv(g, AdvanceStep(if s.onStack[next] then LowerStep(s, Top(frames).vertex, next) else s,
                               Top(frames).vertex),
                Advanced(frames, |frames| - 1))
  {
    hide Inv;
    FrameFacts(g, s, frames, |frames| - 1);
    var v, j := Top(frames).vertex, |frames| - 1;
    if s.onStack[next] {
      ReachSlot(g, v, Top(frames).nextEdge);
      LowerKeeps(g, s, frames, j, next);
      AdvanceKeeps(g, LowerStep(s, v, next), frames, j);
    } else {
      AdvanceKeeps(g, s, frames, j);
    }
  }

  /** What reading the newest frame's next edge to an undiscovered vertex does. */
  function Opened(g: PropagationGraph, s: Search, frames: seq<Frame>, next: nat): Search
    requires frames != [] && next < |s.indices| == |s.lowlink| == |s.onStack| == |s.lowVertex| == |s.owner|
    requires Top(frames).vertex < |s.scanned|
  {
    AdvanceStep(DiscoverStep(s, next, |frames|), Top(frames).vertex)
  }

  /** What reading it to a vertex already discovered does: on the stack, the vertex
      lowers the lowlink. */
  function Skipped(s: Search, frames: seq<Frame>, next: nat): Search
    requires frames != [] && next < |s.indices| == |s.onStack|
    requires Top(frames).vertex < |s.lowlink| == |s.lowVertex| && Top(frames).vertex < |s.scanned|
  {
    AdvanceStep(if s.onStack[next] then LowerStep(s, Top(frames).vertex, next) else s, Top(frames).vertex)
  }

  /** t is s with the stack from `root` up taken off and emitted in ascending order. */
  ghost predicate IsEmission(s: Search, t: Search, root: nat) {
    exists i, component ::
      && 0 <= i < |s.stack| && s.stack[i] == root
      && Ascending(component) && (forall u :: u in component <==> u in s.stack[i..])
      && t == EmitStep(s, i, component)
  }

  /** t is s after the newest frame is closed: its parent inherits its lowlink; then it
      emits its component if it is a root, else the parent owns its vertices. */
  ghost predicate IsClosing(g: PropagationGraph, s: Search, t: Search, frames: seq<Frame>)
    requires CanClose(g, s, frames)
  {
    FrameFacts(g, s, frames, |frames| - 1);
    FrameParent(g, s, frames);
    var v := Top(frames).vertex;
    var u := Inherit(s, frames);
    if u.lowlink[v] == Index(s.indices, v) then IsEmission(u, t, v)
    else |frames| > 1 && t == Reowned(u, |frames| - 2)
  }

  /** All edges of the newest frame are read: its parent takes over its lowlink. */
  function Inherit(s: Search, frames: seq<Frame>): Search
    requires frames != [] && Top(frames).vertex < |s.lowVertex|
    requires |frames| > 1 ==> frames[|frames| - 2].vertex < |s.lowlink| == |s.lowVertex|
    requires s.lowVertex[Top(frames).vertex] < |s.indices|
  {
    if |frames| == 1 then s else LowerStep(s, frames[|frames| - 2].vertex, s.lowVertex[Top(frames).vertex])
  }

  lemma TurnInherit(g: PropagationGraph, s: Search, frames: seq<Frame>)
    requires CanClose(g, s, frames)
    ensures var t := Inherit(s, frames);
            && CanClose(g, t, frames)
            && t.indices == s.indices
            && t.lowlink[Top(frames).vertex] == s.lowlink[Top(frames).vertex]
            && (|frames| > 1 ==> t.lowlink[frames[|frames| - 2].vertex] <= t.lowlink[Top(frames).vertex])
  {
    hide Inv;
    FrameFacts(g, s, frames, |frames| - 1);
    if |frames| > 1 {
      var v, p := Top(frames).vertex, frames[|frames| - 2].vertex;
      FrameFacts(g, s, frames, |frames| - 2);
      FramePair(g, s, frames, |frames| - 2, |frames| - 1);
      ReachTrans(g, p, v, s.lowVertex[v]);
      LowerKeeps(g, s, frames, |frames| - 2, s.lowVertex[v]);
    }
  }

  lemma TurnClose(g: PropagationGraph, s: Search, frames: seq<Frame>)
    requires CanClose(g, s, frames)
    requires s.lowlink[Top(frames).vertex] != Index(s.indices, Top(frames).vertex)
    requires |frames| > 1 ==> s.lowlink[frames[|frames| - 2].vertex] <= s.lowlink[Top(frames).vertex]
    ensures |frames| > 1 && Inv(g, Reowned(s, |frames| - 2), frames[..|frames| - 1])
  {
    OldestIsRoot(g, s, frames);
    CloseKeeps(g, s, frames);
  }

  // ----- the class -----

  /** Edges the open frames have still to read. */
  ghost function Unread(g: PropagationGraph, frames: seq<Frame>): nat {
    if frames == [] then 0
    else
      Unread(g, frames[..|frames| - 1])
      + (if Top(frames).vertex + 1 < |g.offsets| && Top(frames).nextEdge < g.offsets[Top(frames).vertex + 1]
         then g.offsets[Top(frames).vertex + 1] - Top(frames).nextEdge else 0)
  }

  lemma UnreadDrops(g: PropagationGraph, frames: seq<Frame>)
    requires frames != [] && Top(frames).vertex + 1 < |g.offsets|
    requires Top(frames).nextEdge < g.offsets[Top(frames).vertex + 1]
    ensures Unread(g, Advanced(frames, |frames| - 1)) < Unread(g, frames)
  {
    assert Advanced(frames, |frames| - 1)[..|frames| - 1] == frames[..|frames| - 1];
  }

  ghost function Undiscovered(indices: seq<Option<nat>>): set<nat> {
    set v: nat | v < |indices| && indices[v].None?
  }

  /** `component.sort_unstable()` on a permutation of a duplicate-free list. */
  method ListAscending(ghost segment: seq<nat>, component: seq<nat>) returns (sorted: seq<nat>)
    requires NoDuplicates(segment) && multiset(component) == multiset(segment)
    ensures Ascending(sorted)
    ensures forall u :: u in sorted <==> u in segment
    ensures forall u :: u in sorted <==> u in component
  {
    sorted := Sort(NatLe(), component);
    SortSorts(NatLe(), component);
    PermutationNoDuplicates(segment, sorted);
    SameMultisetSameElements(segment, sorted);
    SameMultisetSameElements(component, sorted);
  }

  class TarjanSearch {
    const graph: PropagationGraph
    var nextIndex: nat
    var indices: seq<Option<nat>>
    var lowlink: seq<nat>
    var stack: seq<nat>
    var onStack: seq<bool>
    var components: seq<seq<nat>>
    ghost var scanned: seq<nat>
    ghost var lowVertex: seq<nat>
    ghost var owner: seq<nat>
    ghost var home: seq<Option<nat>>

    ghost function State(): Search
      reads this
    {
      Search(nextIndex, indices, lowlink, stack, onStack, components, scanned, lowVertex, owner, home)
    }

    constructor (graph: PropagationGraph)
      requires graph.WellFormed()
      ensures this.graph == graph && State() == Initial(graph)
    {
      var n := graph.Count();
      this.graph := graph;
      nextIndex := 0;
      indices := seq(n, _ => None);
      lowlink := seq(n, _ => 0);
      stack := [];
      onStack := seq(n, _ => false);
      components := [];
      scanned := graph.offsets[..n];
      lowVertex := seq(n, _ => 0);
      owner := seq(n, _ => 0);
      home := seq(n, _ => None);
    }

    method Discover(vertex: nat, ghost depth: nat)
      requires vertex < |indices| == |lowlink| == |onStack| == |lowVertex| == |owner|
      modifies this
      ensures State() == DiscoverStep(old(State()), vertex, depth)
    {
      var index := nextIndex;
      nextIndex := nextIndex + 1;
      indices := indices[vertex := Some(index)];
      lowlink := lowlink[vertex := index];
      stack := stack + [vertex];
      onStack := onStack[vertex := true];
      lowVertex := lowVertex[vertex := vertex];
      owner := owner[vertex := depth];
    }

    /** Pops the stack down to and including `root`. */
    method PopMembers(root: nat, ghost i: nat) returns (component: seq<nat>)
      requires i < |stack| && stack[i] == root && NoDuplicates(stack)
      requires forall k | 0 <= k < |stack| :: stack[k] < |onStack|
      modifies this`stack, this`onStack
      ensures stack == old(stack)[..i]
      ensures |onStack| == |old(onStack)|
      ensures forall u | 0 <= u < |onStack| :: onStack[u] <==> old(onStack)[u] && u !in component
      ensures multiset(component) == multiset(old(stack)[i..])
    {
      component := [];
      var emitted := false;
      ghost var st := stack;
      while !emitted
        invariant if emitted then |stack| == i else i < |stack| <= |st|
        invariant stack == st[..|stack|]
        invariant |onStack| == |old(onStack)|
        invariant forall u | 0 <= u < |onStack| :: onStack[u] <==> old(onStack)[u] && u !in component
        invariant multiset(component) == multiset(st[|stack|..])
        decreases !emitted, |stack|
      {
        assert st[|stack| - 1..] == [st[|stack| - 1]] + st[|stack|..];
        var member := stack[|stack| - 1];
        stack := stack[..|stack| - 1];
        onStack := onStack[member := false];
        component := component + [member];
        if member == root {
          emitted := true;
        }
      }
    }

    /** Pops the component of `root` off the stack and emits it, ascending. */
    method PopComponent(root: nat, ghost frames: seq<Frame>)
      requires CanClose(graph, State(), frames) && root == Top(frames).vertex
      requires root < |lowlink| && root < |indices| && lowlink[root] == Index(indices, root)
      modifies this
      ensures Inv(graph, State(), frames[..|frames| - 1]) && indices == old(indices)
      ensures IsEmission(old(State()), State(), root)
    {
      hide Inv;
      ghost var s := State();
      StackFacts(graph, s, frames);
      ghost var i :| 0 <= i < |stack| && stack[i] == root;
      var component := PopMembers(root, i);
      assert NoDuplicates(s.stack[i..]) by {
        assert forall k | 0 <= k < |s.stack[i..]| :: s.stack[i..][k] == s.stack[i + k];
      }
      component := ListAscending(s.stack[i..], component);
      home := EmitStep(s, i, component).home;
      components := components + [component];
      assert State() == EmitStep(s, i, component);
      hide EmitStep, CanClose, Ascending, NoDuplicates;
      EmitKeeps(graph, s, frames, i, component);
    }

    /** The newest frame's next edge leads to an undiscovered vertex: open it. */
    method OpenFrame(frames: seq<Frame>, next: nat) returns (frames': seq<Frame>)
      requires Inv(graph, State(), frames) && frames != []
      requires Top(frames).vertex + 1 < |graph.offsets|
      requires Top(frames).nextEdge < graph.offsets[Top(frames).vertex + 1]
      requires Top(frames).nextEdge < |graph.edges| && next == graph.edges[Top(frames).nextEdge]
      requires next < |indices| && indices[next].None?
      modifies this
      ensures Inv(graph, State(), frames') && frames' == Advanced(Pushed(graph, frames, next), |frames| - 1)
      ensures var s := old(State());
        && next < |s.lowlink| == |s.onStack| == |s.lowVertex| == |s.owner| == |s.indices|
        && Top(frames).vertex < |s.scanned| && State() == Opened(graph, s, frames, next)
      ensures Undiscovered(indices) <= Undiscovered(old(indices)) - {next}
    {
      hide Inv, PropagationGraph.WellFormed;
      ghost var s := State();
      var last := |frames| - 1;
      var vertex := frames[last].vertex;
      FrameFacts(graph, s, frames, last);
      TurnDiscover(graph, s, frames, next);
      frames' := frames[last := frames[last].(nextEdge := frames[last].nextEdge + 1)];
      scanned := scanned[vertex := scanned[vertex] + 1];
      Discover(next, |frames|);
      frames' := frames' + [Frame(next, graph.offsets[next], Some(vertex))];
      assert frames' == Advanced(Pushed(graph, frames, next), last);
      assert State() == AdvanceStep(DiscoverStep(s, next, |frames|), vertex);
    }

    /** The newest frame's next edge leads to a vertex already discovered. */
    method SkipEdge(frames: seq<Frame>, next: nat) returns (frames': seq<Frame>)
      requires Inv(graph, State(), frames) && frames != []
      requires Top(frames).vertex + 1 < |graph.offsets|
      requires Top(frames).nextEdge < graph.offsets[Top(frames).vertex + 1]
      requires Top(frames).nextEdge < |graph.edges| && next == graph.edges[Top(frames).nextEdge]
      requires next < |indices| && indices[next].Some?
      modifies this
      ensures Inv(graph, State(), frames') && indices == old(indices) && frames' == Advanced(frames, |frames| - 1)
      ensures var s := old(State());
        && next < |s.onStack| == |s.indices| && Top(frames).vertex < |s.lowlink| == |s.lowVertex|
        && Top(frames).vertex < |s.scanned| && State() == Skipped(s, frames, next)
      ensures Unread(graph, frames') < Unread(graph, frames)
    {
      hide Inv, PropagationGraph.WellFormed;
      ghost var s := State();
      var last := |frames| - 1;
      var vertex := frames[last].vertex;
      FrameFacts(graph, s, frames, last);
      TurnSeen(graph, s, frames, next);
      UnreadDrops(graph, frames);
      frames' := frames[last := frames[last].(nextEdge := frames[last].nextEdge + 1)];
      scanned := scanned[vertex := scanned[vertex] + 1];
      if onStack[next] {
        lowVertex := if indices[next].value < lowlink[vertex] then lowVertex[vertex := next] else lowVertex;
        lowlink := if indices[next].value < lowlink[vertex] then lowlink[vertex := indices[next].value] else lowlink;
      }
    }

    /** Every edge of the newest frame is read: the parent inherits its lowlink,
        and the root of a component emits it. */
    method CloseFrame(frames: seq<Frame>) returns (frames': seq<Frame>)
      requires CanClose(graph, State(), frames)
      modifies this
      ensures Inv(graph, State(), frames') && frames' == frames[..|frames| - 1]
      ensures indices == old(indices) && IsClosing(graph, old(State()), State(), frames)
    {
      hide Inv;
      ghost var s := State();
      var completed := frames[|frames| - 1];
      frames' := frames[..|frames| - 1];
      FrameFacts(graph, s, frames, |frames| - 1);
      TurnInherit(graph, s, frames);
      FrameParent(graph, s, frames);
      if completed.parent.Some? {
        var parent := completed.parent.value;
        if lowlink[completed.vertex] < lowlink[parent] {
          lowVertex := lowVertex[parent := lowVertex[completed.vertex]];
          lowlink := lowlink[parent := lowlink[completed.vertex]];
        }
      }
      assert State() == Inherit(s, frames);
      if lowlink[completed.vertex] == indices[completed.vertex].value {
        PopComponent(completed.vertex, frames);
      } else {
        TurnClose(graph, State(), frames);
        owner := Reowned(State(), |frames| - 2).owner;
      }
    }

    method VisitIterative(start: nat)
      requires Inv(graph, State(), []) && start < graph.Count()
      requires start < |indices| && indices[start].None?
      modifies this
      ensures Inv(graph, State(), [])
      ensures Undiscovered(indices) <= Undiscovered(old(indices)) - {start}
    {
      hide Inv;
      Sizes(graph, State(), []);
      DiscoverKeeps(graph, State(), [], start);
      Discover(start, 0);
      var frames := [Frame(start, graph.offsets[start], None)];
      assert frames == Pushed(graph, [], start);
      while frames != []
        invariant Inv(graph, State(), frames)
        invariant Undiscovered(indices) <= Undiscovered(old(indices)) - {start}
        decreases Undiscovered(indices), Unread(graph, frames), |frames|
      {
        var frame := frames[|frames| - 1];
        FrameFacts(graph, State(), frames, |frames| - 1);
        if frame.nextEdge < graph.offsets[frame.vertex + 1] {
          SlotInRange(graph, frame.vertex, frame.nextEdge);
          var next := graph.edges[frame.nextEdge];
          if indices[next].None? {
            assert next in Undiscovered(indices);
            frames := OpenFrame(frames, next);
          } else {
            frames := SkipEdge(frames, next);
          }
        } else {
          frames := CloseFrame(frames);
        }
      }
    }
  }

  // ----- the whole search -----

  lemma EmittedMember(g: PropagationGraph, components: seq<seq<nat>>, home: seq<Option<nat>>, c: nat, v: nat)
    requires g.WellFormed() && Emitted(g, components, home)
    requires c < |components| && v in components[c]
    ensures v < g.Count() && home[v] == Some(c)
  {
  }

  lemma FinalPartition(g: PropagationGraph, components: seq<seq<nat>>, home: seq<Option<nat>>, place: seq<nat>)
    requires g.WellFormed() && Emitted(g, components, home) && |place| == g.Count()
    requires forall v | 0 <= v < g.Count() :: home[v] == Some(place[v])
    ensures Partition(g.Count(), components, place)
  {
    forall c: nat, v: nat | c < |components| && v in components[c]
      ensures v < g.Count() && place[v] == c
    {
      EmittedMember(g, components, home, c, v);
    }
  }

  lemma FinalReach(g: PropagationGraph, components: seq<seq<nat>>, home: seq<Option<nat>>, place: seq<nat>)
    requires g.WellFormed() && Emitted(g, components, home) && |place| == g.Count()
    requires forall v | 0 <= v < g.Count() :: home[v] == Some(place[v])
    ensures forall u: nat, v: nat | u < g.Count() && v < g.Count() && Reach(g, u, v) :: place[v] <= place[u]
  {
    forall u: nat, v: nat | u < g.Count() && v < g.Count() && Reach(g, u, v)
      ensures place[v] <= place[u]
    {
      var below := iset w: nat | w < g.Count() && place[w] <= place[u];
      assert Closed(g, below);
    }
  }

  lemma FinalComponents(g: PropagationGraph, components: seq<seq<nat>>, home: seq<Option<nat>>)
    requires g.WellFormed() && Emitted(g, components, home)
    requires forall v | 0 <= v < g.Count() :: home[v].Some?
    ensures SccDecomposition(g, components)
  {
    var place := seq(g.Count(), v requires 0 <= v < g.Count() => home[v].value);
    FinalPartition(g, components, home, place);
    FinalReach(g, components, home, place);
    assert ComponentsOf(g, components, place);
  }

  lemma FinalState(g: PropagationGraph, s: Search)
    requires Inv(g, s, []) && forall v: nat | v < g.Count() :: v !in Undiscovered(s.indices)
    ensures Emitted(g, s.components, s.home)
    ensures forall v | 0 <= v < g.Count() :: s.home[v].Some?
  {
    forall v: nat | v < g.Count()
      ensures s.home[v].Some?
    {
      assert v !in Undiscovered(s.indices);
      assert v !in s.stack;
    }
  }

  method StronglyConnectedComponents(g: PropagationGraph) returns (components: seq<seq<nat>>)
    requires g.WellFormed()
    ensures SccDecomposition(g, components)
  {
    hide Inv;
    InitialInv(g);
    var state := new TarjanSearch(g);
    Sizes(g, state.State(), []);
    for vertex := 0 to g.Count()
      invariant state.graph == g && Inv(g, state.State(), [])
      invariant forall v: nat | v < vertex :: v !in Undiscovered(state.indices)
      invariant |state.indices| == g.Count()
    {
      if state.indices[vertex].None? {
        state.VisitIterative(vertex);
        Sizes(g, state.State(), []);
      }
    }
    FinalState(g, state.State());
    FinalComponents(g, state.components, state.home);
    components := state.components;
  }
}
