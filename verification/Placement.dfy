/** Worker placement: CPUs are dealt to the workers round-robin over the NUMA nodes,
    then from what is left of the cpuset.
 */
module Placement {
  import opened Orders

  datatype Node = Node(id: nat, cpus: seq<nat>)

  datatype WorkerPlacement = WorkerPlacement(cpu: nat, node: Option<nat>)

  // ----- the nodes' usable CPUs -----

  function Filter(cpus: seq<nat>, keep: set<nat>): (r: seq<nat>)
    ensures forall c :: c in r <==> c in cpus && c in keep
    ensures NoDuplicates(cpus) ==> NoDuplicates(r)
  {
    if cpus == [] then []
    else
      assert cpus == [cpus[0]] + cpus[1..];
      var rest := Filter(cpus[1..], keep);
      if cpus[0] in keep then [cpus[0]] + rest else rest
  }

  /** The nodes that have usable CPUs, with those. */
  function PerNode(nodes: seq<Node>, allowed: set<nat>): (r: seq<Node>)
    ensures forall n | n in r :: n.cpus != []
  {
    if nodes == [] then []
    else
      var cpus := Filter(nodes[0].cpus, allowed);
      var rest := PerNode(nodes[1..], allowed);
      if cpus == [] then rest else [Node(nodes[0].id, cpus)] + rest
  }

  /** The usable nodes are those with an allowed CPU, each with all its allowed CPUs. */
  lemma {:induction false} PerNodeIs(nodes: seq<Node>, allowed: set<nat>, m: Node)
    ensures m in PerNode(nodes, allowed) <==>
            m.cpus != [] && exists n :: n in nodes && m.id == n.id && m.cpus == Filter(n.cpus, allowed)
  {
    if nodes != [] {
      hide Filter;
      PerNodeIs(nodes[1..], allowed, m);
      assert forall n :: n in nodes <==> n == nodes[0] || n in nodes[1..];
      var cpus, rest := Filter(nodes[0].cpus, allowed), PerNode(nodes[1..], allowed);
      assert forall x :: x in [Node(nodes[0].id, cpus)] + rest <==> x == Node(nodes[0].id, cpus) || x in rest;
    }
  }

  /** No CPU is listed twice, in one node or in two. */
  ghost predicate Disjoint(nodes: seq<Node>) {
    && (forall i | 0 <= i < |nodes| :: NoDuplicates(nodes[i].cpus))
    && (forall i, j, c | 0 <= i < j < |nodes| && c in nodes[i].cpus :: c !in nodes[j].cpus)
  }

  lemma {:induction false} PerNodeFrom(nodes: seq<Node>, allowed: set<nat>, i: nat)
    returns (j: nat)
    requires i < |PerNode(nodes, allowed)|
    ensures j < |nodes| && PerNode(nodes, allowed)[i] == Node(nodes[j].id, Filter(nodes[j].cpus, allowed))
  {
    var cpus := Filter(nodes[0].cpus, allowed);
    if cpus != [] && i == 0 {
      j := 0;
    } else {
      var k := PerNodeFrom(nodes[1..], allowed, if cpus == [] then i else i - 1);
      j := k + 1;
    }
  }

  lemma {:induction false} PerNodeDisjoint(nodes: seq<Node>, allowed: set<nat>)
    requires Disjoint(nodes)
    ensures Disjoint(PerNode(nodes, allowed))
  {
    if nodes != [] {
      var tail := nodes[1..];
      var rest := PerNode(tail, allowed);
      PerNodeDisjoint(tail, allowed);
      forall j, c | 0 <= j < |rest| && c in rest[j].cpus
        ensures c !in nodes[0].cpus
      {
        var k := PerNodeFrom(tail, allowed, j);
        assert c in nodes[k + 1].cpus;
      }
    }
  }

  // ----- dealing -----

  /** How far each node's CPUs are dealt out in the round that has reached `next`:
      every node before it has given one more, as far as it had one. */
  ghost predicate Dealt(nodes: seq<Node>, cursor: seq<nat>, round: nat, next: nat) {
    && |cursor| == |nodes|
    && forall i | 0 <= i < |nodes| ::
         cursor[i] == Least(|nodes[i].cpus|, if i < next then round + 1 else round)
  }

  function Least(a: nat, b: nat): nat { if a < b then a else b }

  /** The selected CPUs are those before the cursors, each once, with their node. */
  ghost predicate IsSelection(nodes: seq<Node>, cursor: seq<nat>, selected: seq<WorkerPlacement>) {
    && |cursor| == |nodes|
    && (forall i | 0 <= i < |nodes| :: cursor[i] <= |nodes[i].cpus|)
    && (forall i, k | 0 <= i < |nodes| && 0 <= k < cursor[i] ::
          WorkerPlacement(nodes[i].cpus[k], Some(nodes[i].id)) in selected)
    && (forall p | p in selected :: IsTaken(nodes, cursor, p))
    && DistinctCpus(selected)
  }

  ghost predicate IsTaken(nodes: seq<Node>, cursor: seq<nat>, p: WorkerPlacement) {
    exists i, k :: 0 <= i < |nodes| && i < |cursor| && 0 <= k < cursor[i] && k < |nodes[i].cpus|
                   && p == WorkerPlacement(nodes[i].cpus[k], Some(nodes[i].id))
  }

  ghost predicate DistinctCpus(selected: seq<WorkerPlacement>) {
    forall i, j | 0 <= i < j < |selected| :: selected[i].cpu != selected[j].cpu
  }

  /** Taking the next CPU of node `n`. */
  lemma TakeOne(nodes: seq<Node>, cursor: seq<nat>, selected: seq<WorkerPlacement>, n: nat)
    requires Disjoint(nodes) && IsSelection(nodes, cursor, selected)
    requires n < |nodes| && cursor[n] < |nodes[n].cpus|
    ensures IsSelection(nodes, cursor[n := cursor[n] + 1],
                        selected + [WorkerPlacement(nodes[n].cpus[cursor[n]], Some(nodes[n].id))])
  {
    var p := WorkerPlacement(nodes[n].cpus[cursor[n]], Some(nodes[n].id));
    var further, longer := cursor[n := cursor[n] + 1], selected + [p];
    forall q | q in selected
      ensures q.cpu != p.cpu && IsTaken(nodes, further, q)
    {
      var i, k :| 0 <= i < |nodes| && 0 <= k < cursor[i] && k < |nodes[i].cpus|
                  && q == WorkerPlacement(nodes[i].cpus[k], Some(nodes[i].id));
      assert nodes[i].cpus[k] in nodes[i].cpus && nodes[n].cpus[cursor[n]] in nodes[n].cpus;
      assert k < further[i];
    }
    assert cursor[n] < further[n];
    assert IsTaken(nodes, further, p);
  }

  /** A taken CPU stays taken, and the one under the cursor becomes so. */
  lemma TakenStays(nodes: seq<Node>, cursor: seq<nat>, n: nat)
    requires |cursor| == |nodes| && n < |nodes| && cursor[n] < |nodes[n].cpus|
    ensures forall p | IsTaken(nodes, cursor, p) :: IsTaken(nodes, cursor[n := cursor[n] + 1], p)
    ensures IsTaken(nodes, cursor[n := cursor[n] + 1], WorkerPlacement(nodes[n].cpus[cursor[n]], Some(nodes[n].id)))
  {
    var further := cursor[n := cursor[n] + 1];
    forall p | IsTaken(nodes, cursor, p)
      ensures IsTaken(nodes, further, p)
    {
      var i, k :| 0 <= i < |nodes| && 0 <= k < cursor[i] && k < |nodes[i].cpus|
                  && p == WorkerPlacement(nodes[i].cpus[k], Some(nodes[i].id));
      assert k < further[i];
    }
    assert cursor[n] < further[n];
  }

  /** Two nodes that both have CPUs left differ by at most one in what they gave. */
  lemma FairShare(nodes: seq<Node>, cursor: seq<nat>, round: nat, next: nat, i: nat, j: nat)
    requires Dealt(nodes, cursor, round, next) && i < |nodes| && j < |nodes|
    requires cursor[i] < |nodes[i].cpus| && cursor[j] < |nodes[j].cpus|
    ensures cursor[i] <= cursor[j] + 1
  {}

  method DealRoundRobin(nodes: seq<Node>, workers: nat)
    returns (selected: seq<WorkerPlacement>, ghost cursor: seq<nat>, ghost round: nat, ghost next: nat)
    ensures |selected| <= workers && |cursor| == |nodes| && Dealt(nodes, cursor, round, next)
    ensures Disjoint(nodes) ==> IsSelection(nodes, cursor, selected)
    ensures forall p | p in selected :: IsTaken(nodes, cursor, p)
    ensures |selected| < workers ==> forall i | 0 <= i < |nodes| :: cursor[i] == |nodes[i].cpus|
  {
    hide IsSelection, IsTaken, Disjoint;
    selected := [];
    var at: seq<nat> := seq(|nodes|, i => 0);
    round, next := 0, 0;
    assert IsSelection(nodes, at, []) by { NothingTaken(nodes, at); }
    while |selected| < workers
      invariant |selected| <= workers && |at| == |nodes|
      invariant Disjoint(nodes) ==> IsSelection(nodes, at, selected)
      invariant forall p | p in selected :: IsTaken(nodes, at, p)
      invariant Dealt(nodes, at, round, next) && (|selected| < workers ==> next == 0)
      decreases workers - |selected|
    {
      var advanced := false;
      var before := |selected|;
      var n := 0;
      while n < |nodes|
        invariant n <= |nodes| && |selected| < workers && |selected| >= before
        invariant |at| == |nodes| && Dealt(nodes, at, round, n)
        invariant Disjoint(nodes) ==> IsSelection(nodes, at, selected)
        invariant forall p | p in selected :: IsTaken(nodes, at, p)
        invariant advanced <==> |selected| > before
        invariant !advanced ==> forall i | 0 <= i < n :: at[i] == |nodes[i].cpus|
      {
        if at[n] < |nodes[n].cpus| {
          if Disjoint(nodes) {
            TakeOne(nodes, at, selected, n);
          }
          TakenStays(nodes, at, n);
          selected := selected + [WorkerPlacement(nodes[n].cpus[at[n]], Some(nodes[n].id))];
          at := at[n := at[n] + 1];
          advanced := true;
          if |selected| == workers {
            next := n + 1;
            break;
          }
        }
        n := n + 1;
      }
      if |selected| < workers {
        assert Dealt(nodes, at, round + 1, 0) by { NextRound(nodes, at, round); }
        round := round + 1;
      }
      if !advanced {
        break;
      }
    }
    cursor := at;
  }

  lemma NothingTaken(nodes: seq<Node>, at: seq<nat>)
    requires |at| == |nodes| && forall i | 0 <= i < |at| :: at[i] == 0
    ensures IsSelection(nodes, at, [])
  {}

  lemma NextRound(nodes: seq<Node>, cursor: seq<nat>, round: nat)
    requires Dealt(nodes, cursor, round, |nodes|)
    ensures Dealt(nodes, cursor, round + 1, 0)
  {}

  // ----- what is left of the cpuset -----

  function Without(cpus: seq<nat>, taken: set<nat>): (r: seq<nat>)
    ensures forall c :: c in r <==> c in cpus && c !in taken
    ensures NoDuplicates(cpus) ==> NoDuplicates(r)
  {
    if cpus == [] then []
    else
      assert cpus == [cpus[0]] + cpus[1..];
      var rest := Without(cpus[1..], taken);
      if cpus[0] in taken then rest else [cpus[0]] + rest
  }

  /** Enough is left: taking away a set loses at most its size. */
  lemma {:induction false} EnoughLeft(cpus: seq<nat>, taken: set<nat>)
    requires NoDuplicates(cpus)
    ensures |Without(cpus, taken)| + |taken| >= |cpus|
  {
    if cpus != [] {
      assert cpus == [cpus[0]] + cpus[1..];
      if cpus[0] in taken {
        EnoughLeft(cpus[1..], taken - {cpus[0]});
        SameWithout(cpus[1..], taken, cpus[0]);
      } else {
        EnoughLeft(cpus[1..], taken);
      }
    }
  }

  lemma {:induction false} SameWithout(cpus: seq<nat>, taken: set<nat>, c: nat)
    requires c !in cpus
    ensures Without(cpus, taken - {c}) == Without(cpus, taken)
  {
    if cpus != [] {
      SameWithout(cpus[1..], taken, c);
    }
  }

  function Cpus(selected: seq<WorkerPlacement>): set<nat> { set p | p in selected :: p.cpu }

  lemma {:induction false} FewCpus(selected: seq<WorkerPlacement>)
    ensures |Cpus(selected)| <= |selected|
  {
    if selected != [] {
      assert selected == [selected[0]] + selected[1..];
      FewCpus(selected[1..]);
      assert Cpus(selected) == Cpus(selected[1..]) + {selected[0].cpu};
    }
  }

  function Unplaced(cpus: seq<nat>): (r: seq<WorkerPlacement>)
    ensures |r| == |cpus| && forall i | 0 <= i < |cpus| :: r[i] == WorkerPlacement(cpus[i], None)
  {
    seq(|cpus|, i requires 0 <= i < |cpus| => WorkerPlacement(cpus[i], None))
  }

  // ----- the selection -----

  function Allowed(cpus: seq<nat>): set<nat> { set c | c in cpus }

  /** The CPU is one of the node's, and the cpuset allows it. */
  ghost predicate IsLegal(allowed: seq<nat>, nodes: seq<Node>, p: WorkerPlacement) {
    && p.cpu in allowed
    && (p.node.Some? ==> exists n | n in nodes :: n.id == p.node.value && p.cpu in n.cpus)
  }

  lemma TakenIsLegal(allowed: seq<nat>, nodes: seq<Node>, cursor: seq<nat>, p: WorkerPlacement)
    requires IsTaken(PerNode(nodes, Allowed(allowed)), cursor, p)
    ensures IsLegal(allowed, nodes, p)
  {
    var usable := PerNode(nodes, Allowed(allowed));
    var i: nat, k: nat :| i < |usable| && i < |cursor| && k < cursor[i] && k < |usable[i].cpus|
                && p == WorkerPlacement(usable[i].cpus[k], Some(usable[i].id));
    var j := PerNodeFrom(nodes, Allowed(allowed), i);
    assert usable[i].cpus[k] in usable[i].cpus;
    assert nodes[j] in nodes;
  }

  /** The dealt placements, filled up from the rest of the cpuset. */
  function FilledUp(allowed: seq<nat>, dealt: seq<WorkerPlacement>, workers: nat): seq<WorkerPlacement> {
    var rest := Unplaced(Without(allowed, Cpus(dealt)));
    if |dealt| >= workers then dealt
    else if |rest| <= workers - |dealt| then dealt + rest
    else dealt + rest[..workers - |dealt|]
  }

  lemma FilledUpWell(allowed: seq<nat>, dealt: seq<WorkerPlacement>, workers: nat)
    requires NoDuplicates(allowed) && DistinctCpus(dealt) && |dealt| <= workers <= |allowed|
    ensures |FilledUp(allowed, dealt, workers)| == workers && DistinctCpus(FilledUp(allowed, dealt, workers))
  {
    var free := Without(allowed, Cpus(dealt));
    EnoughLeft(allowed, Cpus(dealt));
    FewCpus(dealt);
    var all := FilledUp(allowed, dealt, workers);
    forall i, j | 0 <= i < j < |all|
      ensures all[i].cpu != all[j].cpu
    {
      if i < |dealt| <= j {
        assert all[i] in dealt && all[i].cpu in Cpus(dealt);
        assert free[j - |dealt|] in free;
      } else if |dealt| <= i {
        assert free[i - |dealt|] != free[j - |dealt|];
      }
    }
  }

  /** Fails exactly when the cpuset is too small. Otherwise every placement is legal,
      and with distinct CPUs and disjoint nodes there are exactly as many as workers,
      each on a CPU of its own, dealt fairly over the nodes. `dealt` of them come from
      the nodes; the others are used only once the nodes have nothing left. */
  method SelectWorkerPlacements(allowed: seq<nat>, nodes: seq<Node>, workers: nat)
    returns (placements: Option<seq<WorkerPlacement>>, ghost cursor: seq<nat>, ghost dealt: nat)
    ensures placements.None? <==> |allowed| < workers
    ensures placements.Some? ==>
              |placements.value| <= workers && forall p | p in placements.value :: IsLegal(allowed, nodes, p)
    ensures placements.Some? && NoDuplicates(allowed) && Disjoint(nodes) ==>
              |placements.value| == workers && DistinctCpus(placements.value)
    ensures var usable := PerNode(nodes, Allowed(allowed));
            placements.Some? && |usable| > 1 ==>
              && dealt <= |placements.value| && |cursor| == |usable|
              && (forall i, j | 0 <= i < |usable| && 0 <= j < |usable| && cursor[i] < |usable[i].cpus|
                                && cursor[j] < |usable[j].cpus| :: cursor[i] <= cursor[j] + 1)
              && (Disjoint(nodes) ==> IsSelection(usable, cursor, placements.value[..dealt]))
              && (dealt < workers ==> forall i | 0 <= i < |usable| :: cursor[i] == |usable[i].cpus|)
              && forall p | p in placements.value[dealt..] :: p.node.None?
  {
    hide IsSelection, IsTaken, IsLegal, Disjoint, Dealt, DistinctCpus, PerNode;
    cursor, dealt := [], 0;
    if |allowed| < workers {
      return None, cursor, dealt;
    }
    var usable := PerNode(nodes, Allowed(allowed));
    var selected := [];
    ghost var round, next := 0, 0;
    if Disjoint(nodes) {
      PerNodeDisjoint(nodes, Allowed(allowed));
    }
    if |usable| > 1 {
      selected, cursor, round, next := DealRoundRobin(usable, workers);
      forall i, j | 0 <= i < |usable| && 0 <= j < |usable|
                    && cursor[i] < |usable[i].cpus| && cursor[j] < |usable[j].cpus|
        ensures cursor[i] <= cursor[j] + 1
      {
        FairShare(usable, cursor, round, next, i, j);
      }
    }
    dealt := |selected|;
    var all := FilledUp(allowed, selected, workers);
    placements := Some(all);
    assert all[..dealt] == selected;
    SelectedLegal(allowed, nodes, cursor, selected, workers);
    if NoDuplicates(allowed) && Disjoint(nodes) {
      SelectedDistinct(usable, cursor, selected);
      FilledUpWell(allowed, selected, workers);
    }
  }

  lemma SelectedDistinct(nodes: seq<Node>, cursor: seq<nat>, selected: seq<WorkerPlacement>)
    requires selected == [] || IsSelection(nodes, cursor, selected)
    ensures DistinctCpus(selected)
  {}

  lemma SelectedLegal(allowed: seq<nat>, nodes: seq<Node>, cursor: seq<nat>, selected: seq<WorkerPlacement>,
                      workers: nat)
    requires |selected| <= workers
    requires forall p | p in selected :: IsTaken(PerNode(nodes, Allowed(allowed)), cursor, p)
    ensures |FilledUp(allowed, selected, workers)| <= workers
    ensures forall p | p in FilledUp(allowed, selected, workers) :: IsLegal(allowed, nodes, p)
    ensures forall p | p in FilledUp(allowed, selected, workers)[|selected|..] :: p.node.None?
  {
    var free := Without(allowed, Cpus(selected));
    forall p | p in FilledUp(allowed, selected, workers)
      ensures IsLegal(allowed, nodes, p)
    {
      if p in selected {
        TakenIsLegal(allowed, nodes, cursor, p);
      } else {
        var i :| 0 <= i < |free| && p == Unplaced(free)[i];
        assert free[i] in free;
      }
    }
  }
}
