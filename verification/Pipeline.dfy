/** The metadata pipeline: a scanner stages keys, workers claim, judge, insert and
    delete them, with leases that run out and workers that die at any point.
    Every committed statement is one step on the tables.
 */
module Pipeline {
  import opened Orders

  datatype Key = Key(contract: string, token: nat)

  datatype Claim = Claim(at: nat, owner: nat)

  datatype Row = Row(key: Key, claim: Option<Claim>)

  /** Where a worker is between two committed statements. */
  datatype Pc = Free | Claimed | Judged | Cleaned | Swept | Inserted | Releasing | Gone

  /** `pending` is the claimed batch by row id, taken at time `since`. After the
      batch is judged: `inserts` goes to the main table, `blackIds` are the rows
      of blacklisted contracts, `restIds` the other rows, and `newly` the
      contracts this batch blacklists. */
  datatype Worker = Worker(pc: Pc, pending: map<nat, Key>, since: nat, inserts: set<Key>,
                           blackIds: set<nat>, restIds: set<nat>, newly: set<string>)

  /** The tables, the clock, the workers; and, for the claims made about them, the
      keys ever staged, those some worker judged invalid or blacklisted, the contracts
      swept out of the main table, and those a batch has put on the blacklist. */
  datatype State = State(now: nat, nextId: nat, temp: map<nat, Row>, main: set<Key>, workers: map<nat, Worker>,
                         staged: set<Key>, rejected: set<Key>, blackContracts: set<string>, listed: set<string>)
  {
    predicate Holds(w: nat, id: nat) {
      w in workers && workers[w].pc != Free && workers[w].pc != Gone && id in workers[w].pending
    }

    predicate InTemp(k: Key) {
      exists id :: id in temp && temp[id].key == k
    }

    predicate Rejected(k: Key) {
      k in rejected || k.contract in blackContracts
    }
  }

  datatype Action =
    | Tick
    | Stage(key: Key)
    | Start(w: nat)
    | ClaimBatch(w: nat, ids: set<nat>)
    | FailBatch(w: nat)
    | Judge(w: nat, invalid: set<nat>, onchain: set<string>, blacklist: set<string>)
    | CleanIds(w: nat)
    | Sweep(w: nat, locked: set<nat>)
    | InsertMain(w: nat)
    | DeleteTemp(w: nat)
    | Release(w: nat)
    | Die(w: nat)

  const NOBODY := Worker(Free, map[], 0, {}, {}, {}, {})

  // ----- the statements -----

  /** Unclaimed, or claimed longer ago than the lease. */
  predicate Claimable(row: Row, now: nat, lease: nat) {
    row.claim.None? || row.claim.value.at + lease < now
  }

  /** `INSERT ... ON CONFLICT DO NOTHING` into the temp table. */
  function StageKey(s: State, k: Key): State {
    if s.InTemp(k) then s.(staged := s.staged + {k})
    else s.(temp := s.temp[s.nextId := Row(k, None)], nextId := s.nextId + 1, staged := s.staged + {k})
  }

  /** The claim of any set of claimable rows; skipped locks and the batch size
      only choose which. */
  function ClaimRows(s: State, w: nat, ids: set<nat>): State
    requires ids <= s.temp.Keys
  {
    s.(temp := (map id | id in s.temp ::
         if id in ids then s.temp[id].(claim := Some(Claim(s.now, w))) else s.temp[id]),
       workers := s.workers[w := NOBODY.(pc := Claimed, since := s.now,
                                         pending := (map id | id in ids :: s.temp[id].key))])
  }

  /** The verdict on a batch. Rows of on-chain-image contracts and rows with an
      invalid URI are not inserted; then the loaded blacklist, whatever it holds
      at that moment, is applied too. */
  function JudgeBatch(s: State, w: nat, invalid: set<nat>, onchain: set<string>, blacklist: set<string>): State
    requires w in s.workers
  {
    var x := s.workers[w];
    var effective := blacklist + onchain;
    var inserts := set id | id in x.pending && id !in invalid && x.pending[id].contract !in effective :: x.pending[id];
    var dropped := set id | id in x.pending && (id in invalid || x.pending[id].contract in effective) :: x.pending[id];
    s.(workers := s.workers[w := x.(pc := Judged, inserts := inserts, newly := onchain,
                                    blackIds := (set id | id in x.pending && x.pending[id].contract in effective),
                                    restIds := (set id | id in x.pending && x.pending[id].contract !in effective))],
       rejected := s.rejected + dropped,
       listed := s.listed + onchain)
  }

  function WithoutIds(temp: map<nat, Row>, ids: set<nat>): map<nat, Row> {
    map id | id in temp && id !in ids :: temp[id]
  }

  /** One transaction: the newly blacklisted contracts leave the main table and,
      but for rows locked by others, the temp table. */
  function SweepContracts(s: State, w: nat, locked: set<nat>): State
    requires w in s.workers
  {
    var x := s.workers[w];
    s.(main := (set k | k in s.main && k.contract !in x.newly),
       temp := (map id | id in s.temp
                         && (s.temp[id].key.contract !in x.newly || id in x.blackIds || id in locked) :: s.temp[id]),
       blackContracts := s.blackContracts + x.newly,
       workers := s.workers[w := x.(pc := Swept)])
  }

  /** Clears the claims on these rows that are still this worker's own. */
  function ReleaseRows(temp: map<nat, Row>, ids: set<nat>, w: nat): map<nat, Row> {
    map id | id in temp ::
      if id in ids && temp[id].claim.Some? && temp[id].claim.value.owner == w then temp[id].(claim := None)
      else temp[id]
  }

  function SetPc(s: State, w: nat, pc: Pc): State
    requires w in s.workers
  {
    s.(workers := s.workers[w := s.workers[w].(pc := pc)])
  }

  predicate At(s: State, w: nat, pc: Pc) {
    w in s.workers && s.workers[w].pc == pc
  }

  /** One step; an action that does not apply changes nothing. */
  function Apply(s: State, lease: nat, a: Action): State {
    match a
    case Tick => s.(now := s.now + 1)
    case Stage(k) => StageKey(s, k)
    case Start(w) => if w in s.workers then s else s.(workers := s.workers[w := NOBODY])
    case ClaimBatch(w, ids) =>
      if At(s, w, Free) && ids <= s.temp.Keys && forall id | id in ids :: Claimable(s.temp[id], s.now, lease)
      then ClaimRows(s, w, ids) else s
    case FailBatch(w) => if At(s, w, Claimed) then SetPc(s, w, Releasing) else s
    case Judge(w, invalid, onchain, blacklist) =>
      if At(s, w, Claimed) then JudgeBatch(s, w, invalid, onchain, blacklist) else s
    case CleanIds(w) =>
      if At(s, w, Judged) then SetPc(s.(temp := WithoutIds(s.temp, s.workers[w].blackIds)), w, Cleaned) else s
    case Sweep(w, locked) => if At(s, w, Cleaned) then SweepContracts(s, w, locked) else s
    case InsertMain(w) =>
      if At(s, w, Swept) then SetPc(s.(main := s.main + s.workers[w].inserts), w, Inserted) else s
    case DeleteTemp(w) =>
      if At(s, w, Inserted) then SetPc(s.(temp := WithoutIds(s.temp, s.workers[w].restIds)), w, Free) else s
    case Release(w) =>
      if w in s.workers && s.workers[w].pc != Free && s.workers[w].pc != Gone
      then SetPc(s.(temp := ReleaseRows(s.temp, s.workers[w].pending.Keys, w)), w,
                 if s.workers[w].pc == Releasing then Free else Gone)
      else s
    case Die(w) => if w in s.workers then SetPc(s, w, Gone) else s
  }

  function After(s: State, lease: nat, actions: seq<Action>): State {
    if actions == [] then s
    else Apply(After(s, lease, actions[..|actions| - 1]), lease, actions[|actions| - 1])
  }

  // ----- the invariant -----

  /** No staged key is ever lost. */
  ghost predicate NothingLost(s: State) {
    forall k | k in s.staged :: s.InTemp(k) || k in s.main || s.Rejected(k)
  }

  /** A row id names the same key for whoever remembers it. */
  ghost predicate IdsStable(s: State) {
    && (forall id | id in s.temp :: id < s.nextId)
    && (forall w, id {:trigger id in s.workers[w].pending} | w in s.workers && id in s.workers[w].pending ::
          id < s.nextId && (id in s.temp ==> s.temp[id].key == s.workers[w].pending[id]))
  }

  /** What a worker may delete is settled: rejected, or about to be inserted, or
      inserted (and if a sweep took it out again, rejected by that sweep). */
  ghost predicate Settled(s: State) {
    forall w | w in s.workers ::
      var x := s.workers[w];
      && x.blackIds <= x.pending.Keys && x.restIds <= x.pending.Keys
      && (x.pc == Judged ==> forall id | id in x.blackIds :: s.Rejected(x.pending[id]))
      && (x.pc == Judged || x.pc == Cleaned || x.pc == Swept ==>
            forall id | id in x.restIds :: x.pending[id] in x.inserts || s.Rejected(x.pending[id]))
      && (x.pc == Inserted ==>
            forall id | id in x.restIds :: x.pending[id] in s.main || s.Rejected(x.pending[id]))
  }

  /** A holder of a row still in the temp table either owns the claim or holds it
      past the lease; two holders of one id took it more than a lease apart. */
  ghost predicate Leases(s: State, lease: nat) {
    && (forall id | id in s.temp && s.temp[id].claim.Some? :: s.temp[id].claim.value.at <= s.now)
    && (forall w, id | s.Holds(w, id) ::
          && s.workers[w].since <= s.now
          && (id in s.temp ==> s.temp[id].claim == Some(Claim(s.workers[w].since, w))
                               || s.workers[w].since + lease < s.now))
    && (forall v, w, id | v != w && s.Holds(v, id) && s.Holds(w, id) ::
          s.workers[v].since + lease < s.workers[w].since || s.workers[w].since + lease < s.workers[v].since)
  }

  ghost predicate Inv(s: State, lease: nat) {
    NothingLost(s) && IdsStable(s) && Settled(s) && Leases(s, lease)
  }

  lemma StageLosesNothing(s: State, k: Key)
    requires NothingLost(s) && IdsStable(s)
    ensures NothingLost(StageKey(s, k))
  {
    var t := StageKey(s, k);
    forall k' | k' in t.staged
      ensures t.InTemp(k') || k' in t.main || t.Rejected(k')
    {
      if s.InTemp(k') {
        var id :| id in s.temp && s.temp[id].key == k';
        assert id in t.temp && t.temp[id].key == k';
      } else if k' == k {
        assert t.temp[s.nextId].key == k;
      } else {
        assert s.Rejected(k') ==> t.Rejected(k');
      }
    }
  }

  lemma StageKeeps(s: State, lease: nat, k: Key)
    requires Inv(s, lease)
    ensures Inv(StageKey(s, k), lease)
  {
    var t := StageKey(s, k);
    StageLosesNothing(s, k);
    SameWorkersSettled(s, t);
    assert t.workers == s.workers && t.now == s.now;
    assert (t.temp == s.temp && t.nextId == s.nextId)
           || (s.nextId !in s.temp && t.temp == s.temp[s.nextId := Row(k, None)] && t.nextId == s.nextId + 1);
    hide NothingLost, State.InTemp, State.Rejected, StageKey, Settled;
    SameWorkersHold(s, t);
    StageIds(s, t, Row(k, None));
  }

  lemma StageIds(s: State, t: State, row: Row)
    requires IdsStable(s) && t.workers == s.workers
    requires (t.temp == s.temp && t.nextId == s.nextId)
             || (t.temp == s.temp[s.nextId := row] && t.nextId == s.nextId + 1)
    ensures IdsStable(t)
  {
    forall w: nat, id: nat | w in t.workers && id in t.workers[w].pending
      ensures id < t.nextId && (id in t.temp ==> t.temp[id].key == t.workers[w].pending[id])
    {
      Remembered(s, w, id);
    }
  }

  lemma Remembered(s: State, w: nat, id: nat)
    requires IdsStable(s) && w in s.workers && id in s.workers[w].pending
    ensures id < s.nextId
    ensures id in s.temp ==> s.temp[id].key == s.workers[w].pending[id]
  {
  }

  /** Holding depends on the workers alone. */
  lemma SameWorkersHold(s: State, t: State)
    requires t.workers == s.workers
    ensures forall v, id :: t.Holds(v, id) <==> s.Holds(v, id)
  {
  }

  lemma SameWorkersSettled(s: State, t: State)
    requires Settled(s) && t.workers == s.workers && t.rejected == s.rejected
    requires t.blackContracts == s.blackContracts && s.main <= t.main
    ensures Settled(t)
  {
    assert forall k :: s.Rejected(k) <==> t.Rejected(k);
  }

  lemma ClaimLeases(s: State, lease: nat, w: nat, ids: set<nat>)
    requires Leases(s, lease) && At(s, w, Free) && ids <= s.temp.Keys
    requires forall id | id in ids :: Claimable(s.temp[id], s.now, lease)
    ensures Leases(ClaimRows(s, w, ids), lease)
  {
    var t := ClaimRows(s, w, ids);
    assert forall v, id | t.Holds(v, id) && v != w :: s.Holds(v, id);
    forall v, id | v != w && t.Holds(v, id) && t.Holds(w, id)
      ensures t.workers[v].since + lease < t.workers[w].since
    {
      assert s.Holds(v, id) && id in s.temp;
    }
  }

  lemma ClaimKeeps(s: State, lease: nat, w: nat, ids: set<nat>)
    requires Inv(s, lease) && At(s, w, Free) && ids <= s.temp.Keys
    requires forall id | id in ids :: Claimable(s.temp[id], s.now, lease)
    ensures Inv(ClaimRows(s, w, ids), lease)
  {
    var t := ClaimRows(s, w, ids);
    ClaimLeases(s, lease, w, ids);
    hide Leases, State.Holds;
    assert NothingLost(t) by {
      SameKeys(s, t);
      assert forall k :: s.Rejected(k) <==> t.Rejected(k);
    }
    hide NothingLost, State.InTemp;
    ClaimSettled(s, w, ids);
  }

  lemma ClaimSettled(s: State, w: nat, ids: set<nat>)
    requires Settled(s) && ids <= s.temp.Keys
    ensures Settled(ClaimRows(s, w, ids))
  {
    assert forall k :: s.Rejected(k) <==> ClaimRows(s, w, ids).Rejected(k);
  }

  /** The same ids with the same keys: whatever was in the temp table still is. */
  lemma SameKeys(s: State, t: State)
    requires t.temp.Keys == s.temp.Keys && forall id | id in s.temp :: t.temp[id].key == s.temp[id].key
    ensures forall k :: s.InTemp(k) <==> t.InTemp(k)
  {
    forall k
      ensures s.InTemp(k) <==> t.InTemp(k)
    {
      if s.InTemp(k) {
        var id :| id in s.temp && s.temp[id].key == k;
        assert id in t.temp && t.temp[id].key == k;
      }
      if t.InTemp(k) {
        var id :| id in t.temp && t.temp[id].key == k;
        assert id in s.temp && s.temp[id].key == k;
      }
    }
  }

  lemma JudgeKeeps(s: State, lease: nat, w: nat, invalid: set<nat>, onchain: set<string>, blacklist: set<string>)
    requires Inv(s, lease) && At(s, w, Claimed)
    ensures Inv(JudgeBatch(s, w, invalid, onchain, blacklist), lease)
  {
    var t := JudgeBatch(s, w, invalid, onchain, blacklist);
    SameKeys(s, t);
    assert forall v, id :: t.Holds(v, id) <==> s.Holds(v, id);
    assert forall k :: s.Rejected(k) ==> t.Rejected(k);
  }

  /** Rows leave the temp table only when their keys are settled. */
  lemma DropKeeps(s: State, lease: nat, temp: map<nat, Row>)
    requires Inv(s, lease)
    requires temp.Keys <= s.temp.Keys && forall id | id in temp :: temp[id] == s.temp[id]
    requires forall id | id in s.temp && id !in temp :: s.temp[id].key in s.main || s.Rejected(s.temp[id].key)
    ensures Inv(s.(temp := temp), lease)
  {
    var t := s.(temp := temp);
    assert forall v, id :: t.Holds(v, id) <==> s.Holds(v, id);
    assert forall k :: s.Rejected(k) <==> t.Rejected(k);
    forall k | k in t.staged
      ensures t.InTemp(k) || k in t.main || t.Rejected(k)
    {
      if s.InTemp(k) {
        var id :| id in s.temp && s.temp[id].key == k;
        if id in temp {
          assert temp[id].key == k;
        }
      }
    }
  }

  lemma SweepKeeps(s: State, lease: nat, w: nat, locked: set<nat>)
    requires Inv(s, lease) && At(s, w, Cleaned)
    ensures Inv(SweepContracts(s, w, locked), lease)
  {
    var t := SweepContracts(s, w, locked);
    forall k | k in t.staged
      ensures t.InTemp(k) || k in t.main || t.Rejected(k)
    {
      if s.InTemp(k) && k.contract !in s.workers[w].newly {
        var id :| id in s.temp && s.temp[id].key == k;
        assert id in t.temp && t.temp[id].key == k;
      }
    }
    assert forall v, id :: t.Holds(v, id) <==> s.Holds(v, id);
    assert forall k :: s.Rejected(k) ==> t.Rejected(k);
  }

  lemma CleanKeeps(s: State, lease: nat, w: nat)
    requires Inv(s, lease) && At(s, w, Judged)
    ensures Inv(Apply(s, lease, CleanIds(w)), lease)
  {
    var temp := WithoutIds(s.temp, s.workers[w].blackIds);
    DropKeeps(s, lease, temp);
    SetPcKeeps(s.(temp := temp), lease, w, Cleaned);
  }

  lemma DeleteKeeps(s: State, lease: nat, w: nat)
    requires Inv(s, lease) && At(s, w, Inserted)
    ensures Inv(Apply(s, lease, DeleteTemp(w)), lease)
  {
    var temp := WithoutIds(s.temp, s.workers[w].restIds);
    DropKeeps(s, lease, temp);
    SetPcKeeps(s.(temp := temp), lease, w, Free);
  }

  /** Moving on changes nothing but the worker's own counter. */
  lemma SetPcLosesNothing(s: State, w: nat, pc: Pc)
    requires NothingLost(s) && w in s.workers
    ensures NothingLost(SetPc(s, w, pc))
  {
    var t := SetPc(s, w, pc);
    SameKeys(s, t);
    assert forall k :: s.Rejected(k) <==> t.Rejected(k);
  }

  lemma SetPcIds(s: State, w: nat, pc: Pc)
    requires IdsStable(s) && w in s.workers
    ensures IdsStable(SetPc(s, w, pc))
  {
    var t := SetPc(s, w, pc);
    assert forall v | v in t.workers :: v in s.workers && t.workers[v].pending == s.workers[v].pending;
  }

  lemma SetPcLeases(s: State, lease: nat, w: nat, pc: Pc)
    requires Leases(s, lease) && w in s.workers
    requires pc == Free || pc == Gone || (s.workers[w].pc != Free && s.workers[w].pc != Gone)
    ensures Leases(SetPc(s, w, pc), lease)
  {
    var t := SetPc(s, w, pc);
    assert forall v, id | t.Holds(v, id) :: s.Holds(v, id) && t.workers[v].since == s.workers[v].since;
    FewerHoldersLeases(s, t, lease);
  }

  /** Moving on in a way that promises nothing new. */
  lemma SetPcKeeps(s: State, lease: nat, w: nat, pc: Pc)
    requires Inv(s, lease) && w in s.workers
    requires pc == Free || pc == Gone || (s.workers[w].pc == Claimed && pc == Releasing)
             || (s.workers[w].pc == Judged && pc == Cleaned)
    ensures Inv(SetPc(s, w, pc), lease)
  {
    hide NothingLost, IdsStable, Settled, Leases;
    SetPcLosesNothing(s, w, pc);
    SetPcIds(s, w, pc);
    SetPcSettled(s, w, pc);
    SetPcLeases(s, lease, w, pc);
  }

  lemma SetPcSettled(s: State, w: nat, pc: Pc)
    requires Settled(s) && w in s.workers
    requires pc == Free || pc == Gone || (s.workers[w].pc == Claimed && pc == Releasing)
             || (s.workers[w].pc == Judged && pc == Cleaned)
    ensures Settled(SetPc(s, w, pc))
  {
    assert forall k :: s.Rejected(k) <==> SetPc(s, w, pc).Rejected(k);
  }

  lemma InsertSettled(s: State, w: nat)
    requires Settled(s) && At(s, w, Swept)
    ensures Settled(SetPc(s.(main := s.main + s.workers[w].inserts), w, Inserted))
  {
    assert forall k :: s.Rejected(k) <==> SetPc(s.(main := s.main + s.workers[w].inserts), w, Inserted).Rejected(k);
  }

  lemma MoreInMain(s: State, lease: nat, main: set<Key>)
    requires Inv(s, lease) && s.main <= main
    ensures Inv(s.(main := main), lease)
  {
    var t := s.(main := main);
    SameKeys(s, t);
    assert forall k :: s.Rejected(k) <==> t.Rejected(k);
    SameWorkersSettled(s, t);
    hide Settled, NothingLost;
    SameWorkersHold(s, t);
  }

  lemma InsertKeeps(s: State, lease: nat, w: nat)
    requires Inv(s, lease) && At(s, w, Swept)
    ensures Inv(Apply(s, lease, InsertMain(w)), lease)
  {
    var t := s.(main := s.main + s.workers[w].inserts);
    MoreInMain(s, lease, s.main + s.workers[w].inserts);
    InsertSettled(s, w);
    hide NothingLost, IdsStable, Settled, Leases;
    SetPcLosesNothing(t, w, Inserted);
    SetPcIds(t, w, Inserted);
    SetPcLeases(t, lease, w, Inserted);
  }

  lemma ReleaseKeeps(s: State, lease: nat, w: nat)
    requires Inv(s, lease) && w in s.workers
    ensures Inv(Apply(s, lease, Release(w)), lease)
  {
    if s.workers[w].pc != Free && s.workers[w].pc != Gone {
      var pc := if s.workers[w].pc == Releasing then Free else Gone;
      SetPcKeeps(s, lease, w, pc);
      ReleasedRowsKeep(SetPc(s, w, pc), lease, w);
      assert Apply(s, lease, Release(w))
          == SetPc(s, w, pc).(temp := ReleaseRows(s.temp, s.workers[w].pending.Keys, w));
    }
  }

  /** Clearing the claims of a worker that holds nothing any more. */
  lemma ReleasedRowsKeep(s: State, lease: nat, w: nat)
    requires Inv(s, lease) && w in s.workers && (s.workers[w].pc == Free || s.workers[w].pc == Gone)
    ensures Inv(s.(temp := ReleaseRows(s.temp, s.workers[w].pending.Keys, w)), lease)
  {
    var t := s.(temp := ReleaseRows(s.temp, s.workers[w].pending.Keys, w));
    SameWorkersSettled(s, t);
    assert NothingLost(t) by {
      SameKeys(s, t);
      assert forall k :: s.Rejected(k) <==> t.Rejected(k);
    }
    hide NothingLost, Settled, State.InTemp, State.Rejected;
    ReleasedLeases(s, lease, w);
    forall v: nat, id: nat | v in t.workers && id in t.workers[v].pending
      ensures id < t.nextId && (id in t.temp ==> t.temp[id].key == t.workers[v].pending[id])
    {
      Remembered(s, v, id);
    }
  }

  lemma ReleasedLeases(s: State, lease: nat, w: nat)
    requires Leases(s, lease) && w in s.workers && (s.workers[w].pc == Free || s.workers[w].pc == Gone)
    ensures Leases(s.(temp := ReleaseRows(s.temp, s.workers[w].pending.Keys, w)), lease)
  {
    var t := s.(temp := ReleaseRows(s.temp, s.workers[w].pending.Keys, w));
    SameWorkersHold(s, t);
    forall v, id | t.Holds(v, id) && id in t.temp
      ensures t.temp[id].claim == Some(Claim(t.workers[v].since, v)) || t.workers[v].since + lease < t.now
    {
      assert s.Holds(v, id) && v != w && id in s.temp;
    }
  }

  lemma TickKeeps(s: State, lease: nat)
    requires Inv(s, lease)
    ensures Inv(s.(now := s.now + 1), lease)
  {
    var t := s.(now := s.now + 1);
    SameKeys(s, t);
    assert forall v, id :: t.Holds(v, id) <==> s.Holds(v, id);
    assert forall k :: s.Rejected(k) <==> t.Rejected(k);
  }

  lemma StartKeeps(s: State, lease: nat, w: nat)
    requires Inv(s, lease) && w !in s.workers
    ensures Inv(s.(workers := s.workers[w := NOBODY]), lease)
  {
    var t := s.(workers := s.workers[w := NOBODY]);
    assert NothingLost(t) && Settled(t) by {
      SameKeys(s, t);
      assert forall k :: s.Rejected(k) <==> t.Rejected(k);
    }
    hide NothingLost, Settled, State.InTemp, State.Rejected;
    StartLeases(s, lease, w);
  }

  lemma StartLeases(s: State, lease: nat, w: nat)
    requires Leases(s, lease) && w !in s.workers
    ensures Leases(s.(workers := s.workers[w := NOBODY]), lease)
  {
    var t := s.(workers := s.workers[w := NOBODY]);
    assert forall v, id | t.Holds(v, id) :: v != w && s.Holds(v, id);
    FewerHoldersLeases(s, t, lease);
  }

  /** Leases survive when holders keep their claim times and only holders go. */
  lemma FewerHoldersLeases(s: State, t: State, lease: nat)
    requires Leases(s, lease) && t.temp == s.temp && t.now == s.now
    requires forall v, id | t.Holds(v, id) :: s.Holds(v, id) && t.workers[v].since == s.workers[v].since
    ensures Leases(t, lease)
  {
    hide State.Holds;
  }

  lemma StepKeeps(s: State, lease: nat, a: Action)
    requires Inv(s, lease)
    ensures Inv(Apply(s, lease, a), lease)
  {
    hide Inv;
    match a
    case Stage(k) => StageKeeps(s, lease, k);
    case ClaimBatch(w, ids) =>
      if Apply(s, lease, a) != s {
        ClaimKeeps(s, lease, w, ids);
      }
    case Judge(w, invalid, onchain, blacklist) =>
      if At(s, w, Claimed) {
        JudgeKeeps(s, lease, w, invalid, onchain, blacklist);
      }
    case CleanIds(w) =>
      if At(s, w, Judged) {
        CleanKeeps(s, lease, w);
      }
    case Sweep(w, locked) =>
      if At(s, w, Cleaned) {
        SweepKeeps(s, lease, w, locked);
      }
    case InsertMain(w) =>
      if At(s, w, Swept) {
        InsertKeeps(s, lease, w);
      }
    case DeleteTemp(w) =>
      if At(s, w, Inserted) {
        DeleteKeeps(s, lease, w);
      }
    case Release(w) =>
      if w in s.workers {
        ReleaseKeeps(s, lease, w);
      }
    case Tick => TickKeeps(s, lease);
    case Start(w) =>
      if w !in s.workers {
        StartKeeps(s, lease, w);
      }
    case FailBatch(w) =>
      if At(s, w, Claimed) {
        SetPcKeeps(s, lease, w, Releasing);
      }
    case Die(w) =>
      if w in s.workers {
        SetPcKeeps(s, lease, w, Gone);
      }
  }

  ghost predicate Init(s: State) {
    s.temp == map[] && s.workers == map[] && s.staged == {}
  }

  lemma {:induction false} AlwaysInv(s: State, lease: nat, actions: seq<Action>)
    requires Init(s)
    ensures Inv(After(s, lease, actions), lease)
  {
    if actions != [] {
      AlwaysInv(s, lease, actions[..|actions| - 1]);
      StepKeeps(After(s, lease, actions[..|actions| - 1]), lease, actions[|actions| - 1]);
    }
  }

  // ----- what follows -----

  /** In every interleaving each staged key is in the temp table, in the main
      table, or was judged invalid or blacklisted by some worker. */
  lemma StagedKeysSurvive(s: State, lease: nat, actions: seq<Action>, k: Key)
    requires Init(s) && k in After(s, lease, actions).staged
    ensures var t := After(s, lease, actions); t.InTemp(k) || k in t.main || t.Rejected(k)
  {
    AlwaysInv(s, lease, actions);
  }

  /** Two workers hold the same row only if the older claim had run out when the
      newer one was made. */
  lemma TwoHoldersAreALeaseApart(s: State, lease: nat, actions: seq<Action>, v: nat, w: nat, id: nat)
    requires Init(s) && v != w
    requires After(s, lease, actions).Holds(v, id) && After(s, lease, actions).Holds(w, id)
    ensures var t := After(s, lease, actions);
            t.workers[v].since + lease < t.workers[w].since || t.workers[w].since + lease < t.workers[v].since
  {
    AlwaysInv(s, lease, actions);
  }

  /** The worker whose statement the action is. */
  function Actor(a: Action): Option<nat> {
    match a
    case Tick => None
    case Stage(_) => None
    case Start(w) => Some(w)
    case ClaimBatch(w, _) => Some(w)
    case FailBatch(w) => Some(w)
    case Judge(w, _, _, _) => Some(w)
    case CleanIds(w) => Some(w)
    case Sweep(w, _) => Some(w)
    case InsertMain(w) => Some(w)
    case DeleteTemp(w) => Some(w)
    case Release(w) => Some(w)
    case Die(w) => Some(w)
  }

  lemma ClaimOutlives(s: State, lease: nat, v: nat, id: nat, a: Action)
    requires IdsStable(s) && s.Holds(v, id) && id in s.temp && Actor(a) != Some(v)
    requires s.temp[id].claim == Some(Claim(s.workers[v].since, v))
    requires s.now <= s.workers[v].since + lease || !a.ClaimBatch?
    ensures var t := Apply(s, lease, a);
      && t.Holds(v, id) && t.workers[v] == s.workers[v]
      && (id in t.temp ==> t.temp[id].claim == Some(Claim(s.workers[v].since, v)))
  {
  }

  /** As long as a holder's lease runs, nothing anybody else does, be it a claim, a
      release, a sweep or a death, takes its claim from a row that stays staged. After
      that, only another worker's claim can. */
  lemma HolderKeepsClaim(s: State, lease: nat, actions: seq<Action>, v: nat, id: nat, a: Action)
    requires Init(s) && Actor(a) != Some(v)
    requires var t := After(s, lease, actions);
      && t.Holds(v, id) && id in t.temp
      && (t.now <= t.workers[v].since + lease
          || (t.temp[id].claim == Some(Claim(t.workers[v].since, v)) && !a.ClaimBatch?))
    ensures var t, u := After(s, lease, actions), After(s, lease, actions + [a]);
      && u.Holds(v, id) && u.workers[v] == t.workers[v]
      && (id in u.temp ==> u.temp[id].claim == Some(Claim(t.workers[v].since, v)))
  {
    AlwaysInv(s, lease, actions);
    Then(s, lease, actions, a);
    hide Apply, NothingLost, Settled;
    ClaimOutlives(After(s, lease, actions), lease, v, id, a);
  }

  /** A claim is only ever made by a statement that names the row. */
  lemma ClaimsAreNotInvented(s: State, lease: nat, a: Action, id: nat)
    requires IdsStable(s) && (a.ClaimBatch? ==> id !in a.ids)
    ensures var t := Apply(s, lease, a);
      id in t.temp && t.temp[id].claim.Some? ==> id in s.temp && t.temp[id] == s.temp[id]
  {
  }

  lemma {:induction false} ClaimsAreOld(s: State, lease: nat, actions: seq<Action>, more: seq<Action>, id: nat)
    requires Init(s) && forall a | a in more && a.ClaimBatch? :: id !in a.ids
    ensures var before, t := After(s, lease, actions), After(s, lease, actions + more);
      id in t.temp && t.temp[id].claim.Some? ==> t.temp[id].claim.value.at <= before.now
  {
    AlwaysInv(s, lease, actions);
    if more == [] {
      assert actions + more == actions;
    } else {
      var init, last := more[..|more| - 1], more[|more| - 1];
      assert more == init + [last] && last in more;
      ClaimsAreOld(s, lease, actions, init, id);
      assert actions + more == actions + init + [last];
      Then(s, lease, actions + init, last);
      AlwaysInv(s, lease, actions + init);
      hide Apply, NothingLost, Settled, Leases;
      ClaimsAreNotInvented(After(s, lease, actions + init), lease, last, id);
    }
  }

  /** Whatever else happens meanwhile, a row that is still staged and that nobody has
      claimed since can be claimed once the clock has moved past the lease: whoever held
      it, and whatever became of them. */
  lemma RowsComeBack(s: State, lease: nat, actions: seq<Action>, more: seq<Action>, id: nat)
    requires Init(s) && forall a | a in more && a.ClaimBatch? :: id !in a.ids
    requires After(s, lease, actions).now + lease < After(s, lease, actions + more).now
    ensures var t := After(s, lease, actions + more); id in t.temp ==> Claimable(t.temp[id], t.now, lease)
  {
    ClaimsAreOld(s, lease, actions, more, id);
  }

  /** Waiting is enough: no row is lost by it, and every row can be claimed after it. */
  lemma {:induction false} WaitingBringsRowsBack(s: State, lease: nat, actions: seq<Action>, ticks: nat, id: nat)
    requires Init(s) && lease < ticks && id in After(s, lease, actions).temp
    ensures var t := After(s, lease, actions + seq(ticks, _ => Tick));
            id in t.temp && t.temp[id] == After(s, lease, actions).temp[id] && Claimable(t.temp[id], t.now, lease)
  {
    AlwaysInv(s, lease, actions);
    TicksOnlyPass(s, lease, actions, ticks);
  }

  lemma {:induction false} TicksOnlyPass(s: State, lease: nat, actions: seq<Action>, ticks: nat)
    ensures var t := After(s, lease, actions);
            After(s, lease, actions + seq(ticks, _ => Tick)) == t.(now := t.now + ticks)
  {
    if ticks == 0 {
      assert actions + seq(0, _ => Tick) == actions;
    } else {
      var all := actions + seq(ticks, _ => Tick);
      assert all[..|all| - 1] == actions + seq(ticks - 1, _ => Tick);
      TicksOnlyPass(s, lease, actions, ticks - 1);
    }
  }

  lemma Then(s: State, lease: nat, actions: seq<Action>, a: Action)
    ensures After(s, lease, actions + [a]) == Apply(After(s, lease, actions), lease, a)
  {
    assert (actions + [a])[..|actions|] == actions;
  }

  // ----- what leaves the temp table -----

  /** No key is staged twice at a time. */
  ghost predicate KeysOnce(s: State) {
    forall i, j | i in s.temp && j in s.temp && s.temp[i].key == s.temp[j].key :: i == j
  }

  lemma KeysOnceStep(s: State, lease: nat, a: Action)
    requires KeysOnce(s) && IdsStable(s)
    ensures KeysOnce(Apply(s, lease, a))
  {
    if a.Stage? && !s.InTemp(a.key) {
      assert forall i | i in s.temp :: s.temp[i].key != a.key;
    }
  }

  lemma {:induction false} KeysStagedOnce(s: State, lease: nat, actions: seq<Action>)
    requires Init(s)
    ensures KeysOnce(After(s, lease, actions))
  {
    if actions != [] {
      var init := actions[..|actions| - 1];
      KeysStagedOnce(s, lease, init);
      AlwaysInv(s, lease, init);
      hide Apply, KeysOnce, NothingLost, Settled, Leases;
      KeysOnceStep(After(s, lease, init), lease, actions[|actions| - 1]);
    }
  }

  /** A judged batch is split into two parts, and once it is cleaned its blacklisted part
      is out of the temp table. */
  ghost predicate IsSplit(s: State, w: nat)
    requires w in s.workers
  {
    var x := s.workers[w];
    && (x.pc == Judged || x.pc == Cleaned || x.pc == Swept || x.pc == Inserted ==>
          x.pending.Keys == x.blackIds + x.restIds)
    && (x.pc == Cleaned || x.pc == Swept || x.pc == Inserted ==> x.blackIds !! s.temp.Keys)
  }

  ghost predicate BatchSplit(s: State) {
    forall w | w in s.workers :: IsSplit(s, w)
  }

  /** No step puts a row back whose id was given out before. */
  lemma OldIdsStayOut(s: State, lease: nat, a: Action, id: nat)
    requires id !in s.temp && id < s.nextId
    ensures id !in Apply(s, lease, a).temp
  {
  }

  lemma OthersStay(s: State, lease: nat, a: Action, w: nat)
    requires w in Apply(s, lease, a).workers && Actor(a) != Some(w)
    ensures w in s.workers && Apply(s, lease, a).workers[w] == s.workers[w]
  {
  }

  lemma SplitByOthers(s: State, lease: nat, a: Action, w: nat)
    requires IdsStable(s) && w in s.workers && IsSplit(s, w)
    requires w in Apply(s, lease, a).workers && Apply(s, lease, a).workers[w] == s.workers[w]
    ensures IsSplit(Apply(s, lease, a), w)
  {
    var x, t := s.workers[w], Apply(s, lease, a);
    hide Apply;
    if x.pc == Cleaned || x.pc == Swept || x.pc == Inserted {
      forall id | id in x.blackIds
        ensures id !in t.temp
      {
        assert id in x.pending;
        Remembered(s, w, id);
        OldIdsStayOut(s, lease, a, id);
      }
    }
  }

  lemma SplitByOwn(s: State, lease: nat, a: Action, w: nat)
    requires w in s.workers && IsSplit(s, w) && Actor(a) == Some(w) && w in Apply(s, lease, a).workers
    ensures IsSplit(Apply(s, lease, a), w)
  {
  }

  lemma BatchSplitStep(s: State, lease: nat, a: Action)
    requires BatchSplit(s) && IdsStable(s)
    ensures BatchSplit(Apply(s, lease, a))
  {
    var t := Apply(s, lease, a);
    forall w | w in t.workers
      ensures IsSplit(t, w)
    {
      if Actor(a) != Some(w) {
        OthersStay(s, lease, a, w);
        hide Apply, IsSplit;
        SplitByOthers(s, lease, a, w);
      } else if w in s.workers {
        hide Apply, IsSplit;
        SplitByOwn(s, lease, a, w);
      }
    }
  }

  lemma {:induction false} BatchesSplit(s: State, lease: nat, actions: seq<Action>)
    requires Init(s)
    ensures BatchSplit(After(s, lease, actions))
  {
    if actions != [] {
      var init := actions[..|actions| - 1];
      BatchesSplit(s, lease, init);
      AlwaysInv(s, lease, init);
      hide Apply, BatchSplit, NothingLost, Settled, IdsStable, Leases;
      BatchSplitStep(After(s, lease, init), lease, actions[|actions| - 1]);
    }
  }

  /** A worker that has finished its batch has taken every row of it out of the temp table,
      and no other row by that step. */
  lemma BatchLeavesTemp(s: State, lease: nat, actions: seq<Action>, w: nat)
    requires Init(s) && At(After(s, lease, actions), w, Inserted)
    ensures var t, u := After(s, lease, actions), After(s, lease, actions + [DeleteTemp(w)]);
      && u.temp.Keys == t.temp.Keys - t.workers[w].pending.Keys
      && forall id | id in u.temp :: u.temp[id] == t.temp[id]
  {
    BatchesSplit(s, lease, actions);
    Then(s, lease, actions, DeleteTemp(w));
    hide After;
    DeleteTakesRest(After(s, lease, actions), lease, w);
  }

  lemma DeleteTakesRest(s: State, lease: nat, w: nat)
    requires At(s, w, Inserted)
    ensures var t := Apply(s, lease, DeleteTemp(w));
      t.temp.Keys == s.temp.Keys - s.workers[w].restIds && forall id | id in t.temp :: t.temp[id] == s.temp[id]
  {
  }

  /** A sweep leaves no key of the newly listed contracts in the main table and no row of
      theirs in the temp table but locked ones and those the batch removes itself. All
      else stays. */
  lemma SweepTakes(s: State, lease: nat, w: nat, locked: set<nat>)
    requires At(s, w, Cleaned)
    ensures var t, x := Apply(s, lease, Sweep(w, locked)), s.workers[w];
      && (forall k :: k in t.main <==> k in s.main && k.contract !in x.newly)
      && (forall id :: id in t.temp <==>
            id in s.temp && (s.temp[id].key.contract in x.newly ==> id in x.blackIds || id in locked))
      && forall id | id in t.temp :: t.temp[id] == s.temp[id]
  {
  }

  /** A release frees every row that is still claimed by the worker. */
  lemma ReleaseFrees(s: State, lease: nat, w: nat, id: nat)
    requires s.Holds(w, id) && id in s.temp && s.temp[id].claim.Some? && s.temp[id].claim.value.owner == w
    ensures var t := Apply(s, lease, Release(w));
      id in t.temp && t.temp[id] == Row(s.temp[id].key, None) && !t.Holds(w, id)
  {
  }

  // ----- rejected means judged -----

  /** The step judges row id of its worker's batch, whose key is k, to be invalid or of a
      blacklisted contract. */
  ghost predicate Condemns(s: State, a: Action, id: nat, k: Key) {
    && a.Judge? && At(s, a.w, Claimed)
    && id in s.workers[a.w].pending && s.workers[a.w].pending[id] == k
    && (id in a.invalid || k.contract in a.onchain || k.contract in a.blacklist)
  }

  ghost predicate IsCondemned(s: State, a: Action, k: Key) {
    exists id :: Condemns(s, a, id, k)
  }

  lemma OnlyJudgesReject(s: State, lease: nat, a: Action, k: Key)
    ensures k in Apply(s, lease, a).rejected <==> k in s.rejected || IsCondemned(s, a, k)
  {
    if a.Judge? && At(s, a.w, Claimed) {
      var x := s.workers[a.w];
      if k in Apply(s, lease, a).rejected && k !in s.rejected {
        var id :| id in x.pending && x.pending[id] == k
                  && (id in a.invalid || k.contract in a.blacklist + a.onchain);
        assert Condemns(s, a, id, k);
      }
      if IsCondemned(s, a, k) {
        var id :| Condemns(s, a, id, k);
        assert id in x.pending;
      }
    }
  }

  /** Some step of the run condemned the key. */
  ghost predicate EverCondemned(s: State, lease: nat, actions: seq<Action>, k: Key) {
    exists n :: 0 <= n < |actions| && IsCondemned(After(s, lease, actions[..n]), actions[n], k)
  }

  lemma EverCondemnedNext(s: State, lease: nat, actions: seq<Action>, k: Key)
    requires actions != []
    ensures var last := |actions| - 1;
      EverCondemned(s, lease, actions, k) <==>
        EverCondemned(s, lease, actions[..last], k) || IsCondemned(After(s, lease, actions[..last]), actions[last], k)
  {
    hide IsCondemned, After;
    var last := |actions| - 1;
    assert forall n | 0 <= n < last :: actions[..last][..n] == actions[..n] && actions[..last][n] == actions[n];
  }

  /** A key is rejected by a run exactly when a batch that held it found its row invalid or
      its contract on the chain or on the blacklist. */
  lemma {:induction false} RejectedExactlyWhenCondemned(s: State, lease: nat, actions: seq<Action>, k: Key)
    ensures k in After(s, lease, actions).rejected <==> k in s.rejected || EverCondemned(s, lease, actions, k)
  {
    if actions != [] {
      var last := |actions| - 1;
      RejectedExactlyWhenCondemned(s, lease, actions[..last], k);
      hide IsCondemned, EverCondemned, Apply;
      OnlyJudgesReject(After(s, lease, actions[..last]), lease, actions[last], k);
      EverCondemnedNext(s, lease, actions, k);
    }
  }

  /** The step found the contract's image on the chain. */
  ghost predicate Lists(s: State, a: Action, c: string) {
    a.Judge? && At(s, a.w, Claimed) && c in a.onchain
  }

  /** Some step of the run found it there. */
  ghost predicate EverLists(s: State, lease: nat, actions: seq<Action>, c: string) {
    exists n :: 0 <= n < |actions| && Lists(After(s, lease, actions[..n]), actions[n], c)
  }

  lemma EverListsNext(s: State, lease: nat, actions: seq<Action>, c: string)
    requires actions != []
    ensures var last := |actions| - 1;
      EverLists(s, lease, actions, c) <==>
        EverLists(s, lease, actions[..last], c) || Lists(After(s, lease, actions[..last]), actions[last], c)
  {
    hide Lists, After;
    var last := |actions| - 1;
    assert forall n | 0 <= n < last :: actions[..last][..n] == actions[..n] && actions[..last][n] == actions[n];
  }

  /** A contract is listed by a run exactly when a batch found its image on the chain. */
  lemma {:induction false} ListedExactlyWhenFound(s: State, lease: nat, actions: seq<Action>, c: string)
    ensures c in After(s, lease, actions).listed <==> c in s.listed || EverLists(s, lease, actions, c)
  {
    if actions != [] {
      var last := |actions| - 1;
      ListedExactlyWhenFound(s, lease, actions[..last], c);
      hide Lists, EverLists, Apply;
      OnlyJudgesList(After(s, lease, actions[..last]), lease, actions[last], c);
      EverListsNext(s, lease, actions, c);
    }
  }

  lemma OnlyJudgesList(s: State, lease: nat, a: Action, c: string)
    ensures c in Apply(s, lease, a).listed <==> c in s.listed || Lists(s, a, c)
  {
  }

  /** What workers are about to sweep, and what was swept, is listed. */
  ghost predicate SweepsListed(s: State, swept: set<string>) {
    && s.blackContracts <= swept + s.listed
    && forall w | w in s.workers :: s.workers[w].newly <= s.listed
  }

  lemma {:induction false} SweptWasListed(s: State, lease: nat, actions: seq<Action>)
    requires s.workers == map[]
    ensures SweepsListed(After(s, lease, actions), s.blackContracts)
  {
    if actions != [] {
      SweptWasListed(s, lease, actions[..|actions| - 1]);
    }
  }

  /** Whatever becomes of a staged key, it is in one of the tables, or a batch that held it
      condemned its row, or its contract was found on the chain by some batch. */
  lemma StagedKeysAreAccountedFor(s: State, lease: nat, actions: seq<Action>, k: Key)
    requires Init(s) && s.rejected == {} && s.listed == {} && s.blackContracts == {}
    requires k in After(s, lease, actions).staged
    ensures var t := After(s, lease, actions);
      || t.InTemp(k) || k in t.main
      || EverCondemned(s, lease, actions, k) || EverLists(s, lease, actions, k.contract)
  {
    StagedKeysSurvive(s, lease, actions, k);
    RejectedExactlyWhenCondemned(s, lease, actions, k);
    SweptWasListed(s, lease, actions);
    ListedExactlyWhenFound(s, lease, actions, k.contract);
  }

  // ----- only good keys get into the main table -----

  /** The step judges row id of its worker's batch, whose key is k, to be good. */
  ghost predicate Clears(s: State, a: Action, id: nat, k: Key) {
    && a.Judge? && At(s, a.w, Claimed)
    && id in s.workers[a.w].pending && s.workers[a.w].pending[id] == k
    && id !in a.invalid && k.contract !in a.onchain && k.contract !in a.blacklist
  }

  ghost predicate IsCleared(s: State, a: Action, k: Key) {
    exists id :: Clears(s, a, id, k)
  }

  ghost predicate EverCleared(s: State, lease: nat, actions: seq<Action>, k: Key) {
    exists n :: 0 <= n < |actions| && IsCleared(After(s, lease, actions[..n]), actions[n], k)
  }

  /** The key is in the main table or some worker means to insert it. */
  ghost predicate Chosen(s: State, k: Key) {
    k in s.main || exists w :: w in s.workers && k in s.workers[w].inserts
  }

  lemma OnlyJudgesChoose(s: State, lease: nat, a: Action, k: Key)
    requires Chosen(Apply(s, lease, a), k)
    ensures Chosen(s, k) || IsCleared(s, a, k)
  {
    var t := Apply(s, lease, a);
    if k !in s.main {
      if k in t.main {
        assert k in s.workers[a.w].inserts;
      } else {
        var w :| w in t.workers && k in t.workers[w].inserts;
        if !(w in s.workers && k in s.workers[w].inserts) {
          var x := s.workers[w];
          var id :| id in x.pending && x.pending[id] == k
                    && id !in a.invalid && k.contract !in a.blacklist + a.onchain;
          assert Clears(s, a, id, k);
        }
      }
    }
  }

  /** Every key a run brings into the main table was cleared by a batch that held it. */
  lemma {:induction false} InsertedWasCleared(s: State, lease: nat, actions: seq<Action>, k: Key)
    requires s.workers == map[] && Chosen(After(s, lease, actions), k)
    ensures k in s.main || EverCleared(s, lease, actions, k)
  {
    if actions != [] {
      var last := |actions| - 1;
      var init := actions[..last];
      hide IsCleared, Chosen, Apply;
      OnlyJudgesChoose(After(s, lease, init), lease, actions[last], k);
      if Chosen(After(s, lease, init), k) {
        InsertedWasCleared(s, lease, init, k);
        assert forall n | 0 <= n < last :: init[..n] == actions[..n] && init[n] == actions[n];
      }
    }
  }

  // ----- a good key gets into the main table -----

  lemma JudgedGood(s: State, lease: nat, a: Action, id: nat)
    requires a.Judge? && At(s, a.w, Claimed) && id in s.workers[a.w].pending
    requires !Condemns(s, a, id, s.workers[a.w].pending[id])
    ensures var t := Apply(s, lease, a);
      a.w in t.workers && t.workers[a.w].pc != Claimed && s.workers[a.w].pending[id] in t.workers[a.w].inserts
  {
  }

  lemma InsertsStay(s: State, lease: nat, a: Action, w: nat)
    requires w in s.workers && s.workers[w].pc != Claimed && a != ClaimBatch(w, if a.ClaimBatch? then a.ids else {})
    ensures var t := Apply(s, lease, a);
      w in t.workers && t.workers[w].pc != Claimed && t.workers[w].inserts == s.workers[w].inserts
  {
  }

  lemma {:induction false} InsertsStayOver(s: State, lease: nat, before: seq<Action>, between: seq<Action>, w: nat)
    requires var t := After(s, lease, before); w in t.workers && t.workers[w].pc != Claimed
    requires forall a | a in between && a.ClaimBatch? :: a.w != w
    ensures var t, u := After(s, lease, before), After(s, lease, before + between);
      w in u.workers && u.workers[w].pc != Claimed && u.workers[w].inserts == t.workers[w].inserts
  {
    if between == [] {
      assert before + between == before;
    } else {
      var init, last := between[..|between| - 1], between[|between| - 1];
      assert between == init + [last] && last in between;
      InsertsStayOver(s, lease, before, init, w);
      assert before + between == before + init + [last];
      Then(s, lease, before + init, last);
      hide Apply;
      InsertsStay(After(s, lease, before + init), lease, last, w);
    }
  }

  /** A row that its batch found valid and of no blacklisted contract is in the main table
      after that worker's own insert, whatever everybody did in between. */
  lemma GoodKeysAreInserted(s: State, lease: nat, before: seq<Action>, judge: Action, between: seq<Action>, id: nat)
    requires var t := After(s, lease, before);
      && judge.Judge? && At(t, judge.w, Claimed) && id in t.workers[judge.w].pending
      && !Condemns(t, judge, id, t.workers[judge.w].pending[id])
    requires forall a | a in between && a.ClaimBatch? :: a.w != judge.w
    requires At(After(s, lease, before + [judge] + between), judge.w, Swept)
    ensures After(s, lease, before).workers[judge.w].pending[id]
            in After(s, lease, before + [judge] + between + [InsertMain(judge.w)]).main
  {
    hide Apply, After, Condemns;
    Then(s, lease, before, judge);
    JudgedGood(After(s, lease, before), lease, judge, id);
    InsertsStayOver(s, lease, before + [judge], between, judge.w);
    Then(s, lease, before + [judge] + between, InsertMain(judge.w));
    InsertPuts(After(s, lease, before + [judge] + between), lease, judge.w);
  }

  lemma InsertPuts(s: State, lease: nat, w: nat)
    requires At(s, w, Swept)
    ensures Apply(s, lease, InsertMain(w)).main == s.main + s.workers[w].inserts
  {
  }

  // ----- blacklisted contracts in the main table -----

  /** The main table holds no key of a contract that was swept. */
  ghost predicate Clean(s: State) {
    forall k | k in s.main :: k.contract !in s.blackContracts
  }

  /** A worker inserts a key whose contract was already swept. */
  ghost predicate LateInsert(s: State, a: Action) {
    a.InsertMain? && At(s, a.w, Swept) && exists k | k in s.workers[a.w].inserts :: k.contract in s.blackContracts
  }

  /** Only a late insert makes a clean table unclean, and every late insert does. */
  lemma OnlyLateInsertsSoil(s: State, lease: nat, a: Action)
    requires Clean(s)
    ensures Clean(Apply(s, lease, a)) <==> !LateInsert(s, a)
  {
    if LateInsert(s, a) {
      var k :| k in s.workers[a.w].inserts && k.contract in s.blackContracts;
      assert k in Apply(s, lease, a).main;
    }
  }

  /** Over a whole run the main table is clean at every moment exactly when no step of
      the run is a late insert, which a worker can tell right before it inserts. */
  lemma {:induction false} MainStaysCleanExactly(s: State, lease: nat, actions: seq<Action>)
    requires Clean(s)
    ensures (forall n | 0 <= n <= |actions| :: Clean(After(s, lease, actions[..n])))
            <==> forall n | 0 <= n < |actions| :: !LateInsert(After(s, lease, actions[..n]), actions[n])
  {
    hide Clean, LateInsert, Apply;
    if forall n | 0 <= n < |actions| :: !LateInsert(After(s, lease, actions[..n]), actions[n]) {
      for n := 0 to |actions|
        invariant forall m | 0 <= m <= n :: Clean(After(s, lease, actions[..m]))
      {
        NextPrefix(s, lease, actions, n);
        OnlyLateInsertsSoil(After(s, lease, actions[..n]), lease, actions[n]);
      }
    } else {
      var n :| 0 <= n < |actions| && LateInsert(After(s, lease, actions[..n]), actions[n]);
      NextPrefix(s, lease, actions, n);
      if Clean(After(s, lease, actions[..n])) {
        OnlyLateInsertsSoil(After(s, lease, actions[..n]), lease, actions[n]);
        assert !Clean(After(s, lease, actions[..n + 1]));
      }
    }
  }

  // ----- contracts on the blacklist but not swept yet -----

  /** The main table holds no key of a contract that a batch put on the blacklist. */
  ghost predicate ListClean(s: State) {
    forall k | k in s.main :: k.contract !in s.listed
  }

  /** A worker inserts a key of a listed contract, or a batch lists a contract of which
      the main table holds a key. */
  ghost predicate Soils(s: State, a: Action) {
    || (a.InsertMain? && At(s, a.w, Swept) && exists k | k in s.workers[a.w].inserts :: k.contract in s.listed)
    || (a.Judge? && At(s, a.w, Claimed) && exists k | k in s.main :: k.contract in a.onchain)
  }

  lemma OnlySoilingSoils(s: State, lease: nat, a: Action)
    requires ListClean(s)
    ensures ListClean(Apply(s, lease, a)) <==> !Soils(s, a)
  {
    var t := Apply(s, lease, a);
    if a.InsertMain? && Soils(s, a) {
      var k :| k in s.workers[a.w].inserts && k.contract in s.listed;
      assert k in t.main && k.contract in t.listed;
    } else if a.Judge? && Soils(s, a) {
      var k :| k in s.main && k.contract in a.onchain;
      assert k in t.main && k.contract in t.listed;
    }
  }

  /** Over a whole run the main table never holds a key of a listed contract exactly when
      no step inserts one and no batch lists a contract the table holds. Both can be
      looked up right before the step. */
  lemma {:induction false} MainStaysListCleanExactly(s: State, lease: nat, actions: seq<Action>)
    requires ListClean(s)
    ensures (forall n | 0 <= n <= |actions| :: ListClean(After(s, lease, actions[..n])))
            <==> forall n | 0 <= n < |actions| :: !Soils(After(s, lease, actions[..n]), actions[n])
  {
    hide ListClean, Soils, Apply;
    if forall n | 0 <= n < |actions| :: !Soils(After(s, lease, actions[..n]), actions[n]) {
      for n := 0 to |actions|
        invariant forall m | 0 <= m <= n :: ListClean(After(s, lease, actions[..m]))
      {
        NextPrefix(s, lease, actions, n);
        OnlySoilingSoils(After(s, lease, actions[..n]), lease, actions[n]);
      }
    } else {
      var n :| 0 <= n < |actions| && Soils(After(s, lease, actions[..n]), actions[n]);
      NextPrefix(s, lease, actions, n);
      if ListClean(After(s, lease, actions[..n])) {
        OnlySoilingSoils(After(s, lease, actions[..n]), lease, actions[n]);
        assert !ListClean(After(s, lease, actions[..n + 1]));
      }
    }
  }

  /** A listed contract stays listed. */
  lemma {:induction false} ListedStays(s: State, lease: nat, actions: seq<Action>)
    ensures s.listed <= After(s, lease, actions).listed
  {
    if actions != [] {
      ListedStays(s, lease, actions[..|actions| - 1]);
    }
  }

  /** A worker that dies between listing a contract and sweeping it leaves its rows in the
      main table, without any late insert and with nobody left to sweep them. */
  lemma DeathBeforeSweep(lease: nat)
    ensures exists s: State, actions: seq<Action>, k: Key ::
              && Init(s) && ListClean(s) && Clean(s)
              && (forall n | 0 <= n < |actions| :: !LateInsert(After(s, lease, actions[..n]), actions[n]))
              && var t := After(s, lease, actions);
                 k in t.main && k.contract in t.listed && forall w | w in t.workers :: t.workers[w].pc == Gone
  {
    var k, l := Key("c", 1), Key("c", 2);
    var s := State(0, 0, map[], {k}, map[], {}, {}, {}, {});
    var actions := ListedThenDead(s, lease, k, l);
    hide After, Apply;
    assert forall n | 0 <= n < |actions| :: !LateInsert(After(s, lease, actions[..n]), actions[n]);
  }

  lemma ListedThenDead(s: State, lease: nat, k: Key, l: Key) returns (actions: seq<Action>)
    requires s == State(0, 0, map[], {k}, map[], {}, {}, {}, {}) && k.contract == l.contract
    ensures forall a | a in actions :: !a.InsertMain?
    ensures var t := After(s, lease, actions);
      k in t.main && k.contract in t.listed && forall w | w in t.workers :: t.workers[w].pc == Gone
  {
    actions := [Stage(l), Start(1)];
    StagedOne(s, lease, l);
    Then(s, lease, actions, ClaimBatch(1, {0}));
    actions := actions + [ClaimBatch(1, {0})];
    actions := ListsAndDies(s, lease, actions, k, l);
  }

  lemma StagedOne(s: State, lease: nat, l: Key)
    requires s.temp == map[] && s.workers == map[] && s.nextId == 0
    ensures After(s, lease, [Stage(l), Start(1)])
            == s.(temp := map[0 := Row(l, None)], nextId := 1, staged := s.staged + {l}, workers := map[1 := NOBODY])
  {
    assert After(s, lease, []) == s;
    Then(s, lease, [], Stage(l));
    assert !s.InTemp(l);
    Then(s, lease, [Stage(l)], Start(1));
    assert [Stage(l)] + [Start(1)] == [Stage(l), Start(1)];
    assert [] + [Stage(l)] == [Stage(l)];
  }

  lemma ListsAndDies(s: State, lease: nat, before: seq<Action>, k: Key, l: Key) returns (actions: seq<Action>)
    requires var t := After(s, lease, before); At(t, 1, Claimed) && t.workers.Keys == {1} && k in t.main
    requires k.contract == l.contract && forall a | a in before :: !a.InsertMain?
    ensures forall a | a in actions :: !a.InsertMain?
    ensures var t := After(s, lease, actions);
      k in t.main && k.contract in t.listed && forall w | w in t.workers :: t.workers[w].pc == Gone
  {
    hide After;
    Then(s, lease, before, Judge(1, {}, {l.contract}, {}));
    actions := before + [Judge(1, {}, {l.contract}, {})];
    Then(s, lease, actions, Die(1));
    actions := actions + [Die(1)];
  }

  lemma NextPrefix(s: State, lease: nat, actions: seq<Action>, n: nat)
    requires n < |actions|
    ensures After(s, lease, actions[..n + 1]) == Apply(After(s, lease, actions[..n]), lease, actions[n])
  {
    assert actions[..n + 1][..n] == actions[..n];
  }

  /** The main table can hold a key of a blacklisted contract: a worker that
      judged its batch before another one's sweep inserts after it. */
  lemma InsertAfterSweep(s: State, lease: nat, v: nat, w: nat, k: Key)
    requires At(s, v, Swept) && k in s.workers[v].inserts
    requires At(s, w, Cleaned) && k.contract in s.workers[w].newly
    ensures var t := Apply(Apply(s, lease, Sweep(w, {})), lease, InsertMain(v));
            k in t.main && k.contract in t.blackContracts
  {
  }

  /** Two batches of the same contract, the first judged before the second finds
      the on-chain image. */
  lemma BlacklistedKeyInMain(lease: nat)
    ensures exists s: State, actions: seq<Action>, k: Key ::
              Init(s) && k in After(s, lease, actions).main && k.contract in After(s, lease, actions).blackContracts
  {
    var k, l := Key("c", 1), Key("c", 2);
    var s := State(0, 0, map[], {}, map[], {}, {}, {}, {});
    var setup := StagedTwo(s, lease, k, l);
    var first := FirstBatch(s, lease, setup, k, l);
    var second := SecondBatch(s, lease, first, k, l);
    var t := After(s, lease, second);
    InsertAfterSweep(t, lease, 1, 2, k);
    Then(s, lease, second, Sweep(2, {}));
    Then(s, lease, second + [Sweep(2, {})], InsertMain(1));
  }

  /** Both rows staged, both workers started. */
  lemma StagedTwo(s: State, lease: nat, k: Key, l: Key) returns (actions: seq<Action>)
    requires s == State(0, 0, map[], {}, map[], {}, {}, {}, {}) && k != l
    ensures var t := After(s, lease, actions);
            && t.temp == map[0 := Row(k, None), 1 := Row(l, None)]
            && t.workers == map[1 := NOBODY, 2 := NOBODY]
  {
    actions := [];
    Then(s, lease, actions, Stage(k));
    actions := actions + [Stage(k)];
    assert After(s, lease, []) == s;
    var a := After(s, lease, actions);
    assert a.temp == map[0 := Row(k, None)] && a.nextId == 1;
    Then(s, lease, actions, Stage(l));
    actions := actions + [Stage(l)];
    assert !a.InTemp(l);
    Then(s, lease, actions, Start(1));
    actions := actions + [Start(1)];
    Then(s, lease, actions, Start(2));
    actions := actions + [Start(2)];
  }

  /** Worker 1 claims the first row, finds it valid and gets as far as the insert. */
  lemma FirstBatch(s: State, lease: nat, before: seq<Action>, k: Key, l: Key) returns (actions: seq<Action>)
    requires After(s, lease, before).temp == map[0 := Row(k, None), 1 := Row(l, None)]
    requires After(s, lease, before).workers == map[1 := NOBODY, 2 := NOBODY]
    ensures var t := After(s, lease, actions);
            && At(t, 1, Swept) && k in t.workers[1].inserts
            && At(t, 2, Free) && 1 in t.temp && t.temp[1] == Row(l, None)
  {
    actions := before;
    var a := After(s, lease, actions);
    Then(s, lease, actions, ClaimBatch(1, {0}));
    actions := actions + [ClaimBatch(1, {0})];
    var b := After(s, lease, actions);
    assert b == ClaimRows(a, 1, {0}) && b.workers[1].pending[0] == k;
    actions := FirstJudged(s, lease, actions, k, l);
  }

  lemma FirstJudged(s: State, lease: nat, before: seq<Action>, k: Key, l: Key) returns (actions: seq<Action>)
    requires var t := After(s, lease, before);
             && At(t, 1, Claimed) && t.workers[1].pending == map[0 := k]
             && At(t, 2, Free) && 1 in t.temp && t.temp[1] == Row(l, None)
    ensures var t := After(s, lease, actions);
            && At(t, 1, Swept) && k in t.workers[1].inserts
            && At(t, 2, Free) && 1 in t.temp && t.temp[1] == Row(l, None)
  {
    Then(s, lease, before, Judge(1, {}, {}, {}));
    actions := before + [Judge(1, {}, {}, {})];
    var c := After(s, lease, actions);
    assert 0 in c.workers[1].pending;
    assert k in c.workers[1].inserts && 1 in c.temp && c.temp[1] == Row(l, None) && c.workers[1].blackIds == {};
    Then(s, lease, actions, CleanIds(1));
    actions := actions + [CleanIds(1)];
    Then(s, lease, actions, Sweep(1, {}));
    actions := actions + [Sweep(1, {})];
  }

  /** Worker 2 claims the second row, finds an on-chain image and gets as far as
      its sweep. */
  lemma SecondBatch(s: State, lease: nat, before: seq<Action>, k: Key, l: Key) returns (actions: seq<Action>)
    requires var t := After(s, lease, before);
             && At(t, 1, Swept) && k in t.workers[1].inserts
             && At(t, 2, Free) && 1 in t.temp && t.temp[1] == Row(l, None)
    ensures var t := After(s, lease, actions);
            && At(t, 1, Swept) && k in t.workers[1].inserts
            && At(t, 2, Cleaned) && t.workers[2].newly == {l.contract}
  {
    actions := before;
    Then(s, lease, actions, ClaimBatch(2, {1}));
    actions := actions + [ClaimBatch(2, {1})];
    Then(s, lease, actions, Judge(2, {}, {l.contract}, {}));
    actions := actions + [Judge(2, {}, {l.contract}, {})];
    Then(s, lease, actions, CleanIds(2));
    actions := actions + [CleanIds(2)];
  }
}
