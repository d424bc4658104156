/** The descending block scan: ranges are prefetched in a window, persisted in
    order, and the checkpoint moves down after each batch. A run may be stopped
    or may die between any two committed statements.
 */
module Scanner {
  import opened Orders

  datatype Key = Key(contract: string, token: nat)

  /** Blocks from..to, both included. */
  datatype Range = Range(from: int, to: int)

  // ----- what has been scanned -----

  /** The keys the logs of blocks from..to name, in log order. */
  function Fetch(logs: int -> seq<Key>, from: int, to: int): seq<Key>
    decreases 1 + to - from
  {
    if from > to then [] else logs(from) + Fetch(logs, from + 1, to)
  }

  lemma {:induction false} FetchHolds(logs: int -> seq<Key>, from: int, to: int, b: int, k: Key)
    requires from <= b <= to && k in logs(b)
    ensures k in Fetch(logs, from, to)
    decreases b - from
  {
    if from < b {
      FetchHolds(logs, from + 1, to, b, k);
    }
  }

  /** Some block of low..high names the key. */
  ghost predicate Logged(logs: int -> seq<Key>, low: int, high: int, k: Key) {
    exists b :: low <= b <= high && k in logs(b)
  }

  lemma {:induction false} FetchOnly(logs: int -> seq<Key>, from: int, to: int, k: Key)
    requires k in Fetch(logs, from, to)
    ensures Logged(logs, from, to, k)
    decreases 1 + to - from
  {
    if k !in logs(from) {
      FetchOnly(logs, from + 1, to, k);
      var b :| from + 1 <= b <= to && k in logs(b);
    }
  }

  /** Every key of the blocks low..high was staged, but for banned contracts. */
  ghost predicate Covered(logs: int -> seq<Key>, low: int, high: int, staged: set<Key>, banned: set<string>) {
    forall b, k | low <= b <= high && k in logs(b) :: k in staged || k.contract in banned
  }

  // ----- ranges -----

  /** The ranges go down from `start` without gap or overlap and stop at or above
      `stop`. */
  ghost predicate Descending(ranges: seq<Range>, start: int, stop: int, batch: nat) {
    && (ranges != [] ==> ranges[0].to == start)
    && (forall i, j | 0 <= i && j == i + 1 && j < |ranges| :: ranges[j].to == ranges[i].from - 1)
    && (forall i | 0 <= i < |ranges| ::
          stop <= ranges[i].from <= ranges[i].to && ranges[i].to - ranges[i].from < batch)
  }

  /** The block below the last range. */
  function Below(ranges: seq<Range>, start: int): int {
    if ranges == [] then start else ranges[|ranges| - 1].from - 1
  }

  lemma DescendingAppend(ranges: seq<Range>, start: int, stop: int, batch: nat, r: Range)
    requires Descending(ranges, start, stop, batch)
    requires r.to == Below(ranges, start) && stop <= r.from <= r.to && r.to - r.from < batch
    ensures Descending(ranges + [r], start, stop, batch)
    ensures Below(ranges + [r], start) == r.from - 1
  {
    var longer := ranges + [r];
    forall i, j | 0 <= i && j == i + 1 && j < |longer|
      ensures longer[j].to == longer[i].from - 1
    {
      if j < |ranges| {
        assert ranges[j].to == ranges[i].from - 1;
      }
    }
  }

  /** Ranges of one scan are disjoint: later ones lie wholly below earlier ones. */
  lemma {:induction false} LaterRangesAreBelow(ranges: seq<Range>, start: int, stop: int, batch: nat, i: nat, j: nat)
    requires Descending(ranges, start, stop, batch) && i < j < |ranges|
    ensures ranges[j].to < ranges[i].from
    decreases j
  {
    if j > i + 1 {
      LaterRangesAreBelow(ranges, start, stop, batch, i, j - 1);
    }
    var k := j - 1;
    assert ranges[k + 1].to == ranges[k].from - 1;
  }

  /** Every block from the last range up to the start is in one of the ranges. */
  lemma {:induction false} RangesLeaveNoGap(ranges: seq<Range>, start: int, stop: int, batch: nat, b: int)
    requires Descending(ranges, start, stop, batch) && Below(ranges, start) < b <= start
    ensures exists i :: 0 <= i < |ranges| && ranges[i].from <= b <= ranges[i].to
  {
    var last := |ranges| - 1;
    if b <= ranges[last].to {
      assert ranges[last].from <= b <= ranges[last].to;
    } else {
      var init := ranges[..last];
      assert last > 0 ==> ranges[last].to == ranges[last - 1].from - 1 by {
        if last > 0 { var k := last - 1; assert ranges[k + 1].to == ranges[k].from - 1; }
      }
      DescendingInit(ranges, start, stop, batch);
      RangesLeaveNoGap(init, start, stop, batch, b);
      var i :| 0 <= i < |init| && init[i].from <= b <= init[i].to;
      assert ranges[i].from <= b <= ranges[i].to;
    }
  }

  lemma DescendingInit(ranges: seq<Range>, start: int, stop: int, batch: nat)
    requires Descending(ranges, start, stop, batch) && ranges != []
    ensures Descending(ranges[..|ranges| - 1], start, stop, batch)
  {
    var init := ranges[..|ranges| - 1];
    forall i, j | 0 <= i && j == i + 1 && j < |init|
      ensures init[j].to == init[i].from - 1
    {
      assert ranges[j].to == ranges[i].from - 1;
    }
  }

  /** The range at `i` starts right below the ones before it. */
  lemma StartsBelow(ranges: seq<Range>, start: int, stop: int, batch: nat, i: nat)
    requires Descending(ranges, start, stop, batch) && i < |ranges|
    ensures ranges[i].from <= ranges[i].to == Below(ranges[..i], start)
    ensures stop <= ranges[i].from && ranges[i].to <= start
  {
    if i > 0 {
      LaterRangesAreBelow(ranges, start, stop, batch, 0, i);
      var k := i - 1;
      assert ranges[k + 1].to == ranges[k].from - 1;
    }
  }

  /** Coverage is extended downwards by one range whose keys were all dealt with. */
  lemma CoveredExtend(logs: int -> seq<Key>, r: Range, top: int, staged: set<Key>, banned: set<string>)
    requires r.from <= r.to && (top == r.to || Covered(logs, r.to + 1, top, staged, banned))
    requires forall k | k in Fetch(logs, r.from, r.to) :: k in staged || k.contract in banned
    ensures Covered(logs, r.from, top, staged, banned)
  {
    forall b, k | r.from <= b <= top && k in logs(b)
      ensures k in staged || k.contract in banned
    {
      if b <= r.to {
        FetchHolds(logs, r.from, r.to, b, k);
      }
    }
  }

  lemma CoveredGrows(logs: int -> seq<Key>, saved: Option<int>, top: int, before: set<Key>, after: set<Key>,
                     banned: set<string>)
    requires before <= after && (saved.Some? ==> Covered(logs, saved.value, top, before, banned))
    ensures saved.Some? ==> Covered(logs, saved.value, top, after, banned)
  {}

  // ----- the store that outlives a run -----

  /** The checkpoint and every key ever staged. */
  class ScanStore {
    const logs: int -> seq<Key>
    var saved: Option<int>
    var staged: set<Key>

    constructor (logs: int -> seq<Key>)
      ensures this.logs == logs && saved == None && staged == {}
    {
      this.logs := logs;
      saved := None;
      staged := {};
    }

    /** A saved block p means every key of the blocks from p up to the top was
        staged, but for the contracts banned so far. */
    ghost predicate Checkpointed(top: int, banned: set<string>)
      reads this
    {
      saved.Some? ==> Covered(logs, saved.value, top, staged, banned)
    }

    /** One committed statement. */
    method InsertTemp(records: seq<Key>)
      modifies this`staged
      ensures staged == old(staged) + set k | k in records
    {
      staged := staged + set k | k in records;
    }

    /** One committed statement. */
    method SaveProgress(block: int)
      modifies this`saved
      ensures saved == Some(block)
    {
      saved := Some(block);
    }
  }

  // ----- one run -----

  /** What a run is given, and what happens to it from outside. `stopRequested(n)`
      answers the n-th look at the stop event; the process is killed after
      `killedAfter` committed statements; the tables have meanwhile lost the keys
      in `forgotten`. */
  datatype Config = Config(topBlock: int, stopBlock: nat, batch: nat, scanWindow: nat, blacklist: set<string>,
                           stopRequested: nat -> bool, killedAfter: Option<nat>, forgotten: set<Key>)

  datatype Outcome = Completed | Killed

  /** The checkpoint once a run that found `before` has persisted these ranges. */
  function SavedAfter(persisted: seq<Range>, before: Option<int>): Option<int> {
    if persisted == [] then before else Some(persisted[|persisted| - 1].from)
  }

  /** The block a run starts from. */
  function Start(saved: Option<int>, config: Config): int {
    if saved.Some? then saved.value - 1 else config.topBlock
  }

  /** The block the coverage is measured from once this run has saved: that of the
      first run that ever saved. */
  function TopAfter(saved: Option<int>, config: Config, top: int): int {
    if saved.Some? then top else config.topBlock
  }

  /** The state of one run, lost when the run ends; `top` and `banned` are what its
      checkpoints are measured by. */
  class ScanRun {
    const store: ScanStore
    const config: Config
    var curBlock: int
    var window: seq<Range>
    var seen: set<Key>
    var polls: nat
    var commits: nat
    ghost const start: int
    ghost const savedBefore: Option<int>
    ghost const stagedBefore: set<Key>
    ghost const top: int
    ghost const banned: set<string>
    ghost var enqueued: seq<Range>

    constructor (store: ScanStore, config: Config, ghost top: int, ghost banned: set<string>)
      ensures this.store == store && this.config == config
      ensures start == Start(store.saved, config)
      ensures seen <= store.staged && savedBefore == store.saved && stagedBefore == store.staged
      ensures this.top == TopAfter(store.saved, config, top) && this.banned == banned + config.blacklist
      ensures window == [] && enqueued == [] && curBlock == start
    {
      var cur := Start(store.saved, config);
      this.store, this.config, this.curBlock := store, config, cur;
      seen := store.staged - config.forgotten;
      window := [];
      polls, commits := 0, 0;
      start := cur;
      savedBefore := store.saved;
      stagedBefore := store.staged;
      this.top := TopAfter(store.saved, config, top);
      this.banned := banned + config.blacklist;
      enqueued := [];
    }

    /** The prefetched ranges go down without gap, and the window holds the last of
        them. */
    ghost predicate Valid()
      reads this
    {
      && config.batch > 0
      && Descending(enqueued, start, config.stopBlock, config.batch)
      && curBlock == Below(enqueued, start)
      && |window| <= |enqueued| && window == enqueued[|enqueued| - |window|..]
    }

    /** The ranges taken out of the window so far. */
    ghost function Persisted(): seq<Range>
      reads this
      requires |window| <= |enqueued|
    {
      enqueued[..|enqueued| - |window|]
    }

    /** What holds of the store even if the run is killed: the checkpoint is covered, and
        what the run staged are keys of its blocks whose contracts are not blacklisted. */
    ghost predicate Sound()
      reads this, store
    {
      && config.blacklist <= banned
      && store.Checkpointed(top, banned)
      && stagedBefore <= store.staged
      && forall k | k in store.staged ::
           k in stagedBefore || (k.contract !in config.blacklist && Logged(store.logs, config.stopBlock, start, k))
    }

    /** Between two turns the checkpoint is the lower end of the last persisted range. */
    ghost predicate InStep()
      reads this, store
    {
      && Valid() && Sound()
      && seen <= store.staged
      && start == (if savedBefore.Some? then savedBefore.value - 1 else top)
      && store.saved == SavedAfter(Persisted(), savedBefore)
    }

    method StopRequested() returns (stop: bool)
      modifies this`polls
      ensures polls == old(polls) + 1 && stop == config.stopRequested(old(polls))
    {
      stop := config.stopRequested(polls);
      polls := polls + 1;
    }

    /** The next range down, cut off at the stop block. */
    method NextRange() returns (r: Option<Range>)
      requires Valid()
      modifies this`curBlock
      ensures r.None? <==> old(curBlock) < config.stopBlock
      ensures r.None? ==> curBlock == old(curBlock)
      ensures r.Some? ==> r.value.to == old(curBlock) && curBlock == r.value.from - 1
                          && config.stopBlock <= r.value.from <= r.value.to
                          && r.value.to - r.value.from < config.batch
      ensures r.Some? && config.stopBlock < r.value.from ==> r.value.to - r.value.from == config.batch - 1
    {
      if curBlock < config.stopBlock {
        return None;
      }
      var lowest := curBlock - config.batch + 1;
      var fromB := if lowest >= config.stopBlock then lowest else config.stopBlock;
      var toB := curBlock;
      curBlock := fromB - 1;
      r := Some(Range(fromB, toB));
    }

    /** Prefetches one more range unless a stop was requested or none is left. */
    method Enqueue() returns (added: bool)
      requires Valid()
      modifies this`polls, this`curBlock, this`window, this`enqueued
      ensures Valid() && curBlock <= old(curBlock) && old(polls) < polls
      ensures !added ==> window == old(window) && enqueued == old(enqueued) && curBlock == old(curBlock)
                         && (config.stopRequested(old(polls)) || curBlock < config.stopBlock)
      ensures added ==> |enqueued| == |old(enqueued)| + 1 && window == old(window) + [enqueued[|enqueued| - 1]]
                        && curBlock < old(curBlock) && enqueued[..|old(enqueued)|] == old(enqueued)
                        && config.stopBlock <= old(curBlock) && !config.stopRequested(old(polls))
    {
      var stop := StopRequested();
      if stop {
        return false;
      }
      var r := NextRange();
      if r.None? {
        return false;
      }
      DescendingAppend(enqueued, start, config.stopBlock, config.batch, r.value);
      window := window + [r.value];
      enqueued := enqueued + [r.value];
      added := true;
    }

    /** The keys neither seen before nor blacklisted, once each. */
    method ExtractRecords(logs: seq<Key>) returns (records: seq<Key>)
      modifies this`seen
      ensures seen == old(seen) + set k | k in records
      ensures forall k | k in records :: k in logs && k !in old(seen) && k.contract !in config.blacklist
      ensures NoDuplicates(records)
      ensures forall k | k in logs :: k in seen || k.contract in config.blacklist
    {
      records := [];
      for i := 0 to |logs|
        invariant seen == old(seen) + set k | k in records
        invariant forall k | k in records :: k in logs && k !in old(seen) && k.contract !in config.blacklist
        invariant NoDuplicates(records)
        invariant forall k | k in logs[..i] :: k in seen || k.contract in config.blacklist
      {
        var key := logs[i];
        if key !in seen && key.contract !in config.blacklist {
          seen := seen + {key};
          records := records + [key];
        }
      }
    }

    /** Whether the process is killed right after the statement just committed. */
    method Commit() returns (killed: bool)
      modifies this`commits
      ensures commits == old(commits) + 1 && (killed <==> config.killedAfter == Some(commits))
    {
      commits := commits + 1;
      killed := config.killedAfter == Some(commits);
    }

    /** Nothing is left to scan, or a stop was requested. */
    ghost predicate Finished()
      reads this
    {
      curBlock < config.stopBlock || exists n :: config.stopRequested(n)
    }

    /** Ranges in the window and blocks not yet in a range. */
    ghost function Remaining(): nat
      reads this
    {
      |window| + if curBlock < config.stopBlock then 0 else curBlock - config.stopBlock + 1
    }

    /** Takes the oldest range and prefetches another. */
    method Advance() returns (r: Range)
      requires Valid() && window != []
      modifies this`polls, this`curBlock, this`window, this`enqueued
      ensures Valid() && Persisted() == old(Persisted()) + [r]
      ensures r.from <= r.to == Below(old(Persisted()), start) && config.stopBlock <= r.from && r.to <= start
      ensures |old(enqueued)| <= |enqueued| && enqueued[..|old(enqueued)|] == old(enqueued)
      ensures Remaining() < old(Remaining()) && (window == [] ==> Finished())
    {
      hide Descending;
      r := window[0];
      ghost var before := |enqueued| - |window|;
      assert enqueued[before] == r;
      StartsBelow(enqueued, start, config.stopBlock, config.batch, before);
      window := window[1..];
      assert Persisted() == old(Persisted()) + [r];
      var stop := StopRequested();
      if !stop {
        var _ := Enqueue();
      }
      assert Persisted() == old(Persisted()) + [r];
    }

    /** Fetches and stages one range and only then moves the checkpoint. */
    method PersistBatch(r: Range) returns (killed: bool)
      requires Sound() && seen <= store.staged
      requires config.stopBlock <= r.from <= r.to <= start
      requires r.to == if store.saved.Some? then store.saved.value - 1 else top
      modifies this`seen, this`commits, store
      ensures Sound() && seen <= store.staged && old(store.staged) <= store.staged
      ensures store.saved == Some(r.from) || (killed && store.saved == old(store.saved))
      ensures store.saved == Some(r.from) ==>
                forall k | k in Fetch(store.logs, r.from, r.to) :: k in store.staged || k.contract in config.blacklist
      ensures killed ==> config.killedAfter.Some?
    {
      hide Covered;
      var logs := Fetch(store.logs, r.from, r.to);
      var records := ExtractRecords(logs);
      store.InsertTemp(records);
      StagedFromLogs(r, records, old(store.staged));
      CoveredGrows(store.logs, store.saved, top, old(store.staged), store.staged, banned);
      killed := Commit();
      if killed {
        return;
      }
      CoveredExtend(store.logs, r, top, store.staged, banned);
      store.SaveProgress(r.from);
      killed := Commit();
    }

    lemma StagedFromLogs(r: Range, records: seq<Key>, before: set<Key>)
      requires config.stopBlock <= r.from <= r.to <= start
      requires forall k | k in records :: k in Fetch(store.logs, r.from, r.to) && k.contract !in config.blacklist
      ensures forall k | k in records ::
                k.contract !in config.blacklist && Logged(store.logs, config.stopBlock, start, k)
    {
      forall k | k in records
        ensures Logged(store.logs, config.stopBlock, start, k)
      {
        FetchOnly(store.logs, r.from, r.to, k);
        var b :| r.from <= b <= r.to && k in store.logs(b);
      }
    }

    /** Fills the window. */
    method Fill()
      requires Valid() && window == [] && enqueued == []
      modifies this`polls, this`curBlock, this`window, this`enqueued
      ensures Valid() && Persisted() == []
      ensures config.scanWindow > 0 && window == [] ==> Finished()
    {
      var i, more := 0, true;
      while i < config.scanWindow && more
        invariant Valid() && |window| == |enqueued| && i <= config.scanWindow
        invariant window == [] ==> if i == 0 then more else Finished()
        decreases config.scanWindow - i
      {
        more := Enqueue();
        i := i + 1;
      }
    }

    /** One turn of the loop. */
    method Turn() returns (killed: bool)
      requires InStep() && window != []
      modifies this, store
      ensures Valid() && Sound() && |window| < |enqueued|
      ensures killed ==> config.killedAfter.Some?
      ensures !killed ==> InStep()
      ensures store.saved == SavedAfter(Persisted(), savedBefore)
              || store.saved == SavedAfter(enqueued[..|enqueued| - |window| - 1], savedBefore)
      ensures Remaining() < old(Remaining()) && (window == [] ==> Finished())
    {
      hide Covered, Descending, Logged;
      ghost var done := Persisted();
      var r := Advance();
      assert Persisted() == done + [r];
      assert enqueued[..|enqueued| - |window| - 1] == done;
      killed := PersistBatch(r);
    }

    /** Works the window off. */
    method Drain() returns (outcome: Outcome, ghost persisted: nat)
      requires InStep() && (config.scanWindow > 0 && window == [] ==> Finished())
      modifies this, store
      ensures Valid() && Sound()
      ensures persisted <= |enqueued| && store.saved == SavedAfter(enqueued[..persisted], savedBefore)
      ensures outcome == Completed ==> persisted == |enqueued| && InStep() && window == []
      ensures outcome == Completed && config.scanWindow > 0 ==> Finished()
      ensures outcome == Killed ==> config.killedAfter.Some?
    {
      hide Sound, Descending, SavedAfter;
      while window != []
        invariant InStep()
        invariant config.scanWindow > 0 && window == [] ==> Finished()
        decreases Remaining()
      {
        var killed := Turn();
        if killed {
          persisted := |enqueued| - |window|;
          if store.saved != SavedAfter(Persisted(), savedBefore) {
            persisted := persisted - 1;
          }
          return Killed, persisted;
        }
      }
      persisted := |enqueued|;
      assert Persisted() == enqueued[..persisted];
      outcome := Completed;
    }

    /** A scan that was never asked to stop and is finished got down to the stop block. */
    lemma FinishedSaved()
      requires InStep() && window == [] && config.stopBlock <= start && Finished()
      requires forall n :: !config.stopRequested(n)
      ensures store.saved == Some(config.stopBlock)
    {
      assert Persisted() == enqueued;
    }
  }

  /** One run of the scanner over what earlier runs left. If they saved a checkpoint,
      it is measured from `top`; else the run's own top block becomes the top. */
  method Run(store: ScanStore, config: Config, ghost top: int, ghost banned: set<string>)
    returns (outcome: Outcome, ghost ranges: seq<Range>, ghost persisted: nat)
    requires store.Checkpointed(top, banned) && config.batch > 0
    modifies store
    ensures store.Checkpointed(TopAfter(old(store.saved), config, top), banned + config.blacklist)
    ensures var start := Start(old(store.saved), config);
      && Descending(ranges, start, config.stopBlock, config.batch)
      && (start < config.stopBlock ==> ranges == [])
    ensures persisted <= |ranges| && store.saved == SavedAfter(ranges[..persisted], old(store.saved))
    ensures outcome == Completed ==> persisted == |ranges|
    ensures outcome == Completed && config.scanWindow > 0 && (forall n :: !config.stopRequested(n))
            && config.stopBlock <= Start(old(store.saved), config)
            ==> store.saved == Some(config.stopBlock)
    ensures outcome == Killed ==> config.killedAfter.Some?
    ensures old(store.staged) <= store.staged
    ensures forall k | k in store.staged - old(store.staged) ::
              k.contract !in config.blacklist
              && Logged(store.logs, config.stopBlock, Start(old(store.saved), config), k)
  {
    ghost var before := store.staged;
    var run := new ScanRun(store, config, top, banned);
    assert run.Sound() by { Unscanned(run, top, banned); }
    if run.curBlock < config.stopBlock {
      return Completed, [], 0;
    }
    run.Fill();
    outcome, persisted := run.Drain();
    ranges := run.enqueued;
    if outcome == Completed && config.scanWindow > 0 && forall n :: !config.stopRequested(n) {
      run.FinishedSaved();
    }
  }

  /** A run that has done nothing yet leaves the store as sound as it found it. */
  lemma Unscanned(run: ScanRun, top: int, banned: set<string>)
    requires run.store.Checkpointed(top, banned) && run.stagedBefore == run.store.staged
    requires run.top == TopAfter(run.store.saved, run.config, top) && run.banned == banned + run.config.blacklist
    ensures run.Sound()
  {}

  /** Nobody stops or kills the run. */
  ghost predicate Undisturbed(config: Config) {
    config.scanWindow > 0 && config.killedAfter.None? && forall n :: !config.stopRequested(n)
  }

  /** The checkpoint only moves down, and an undisturbed run gets to its stop block. */
  ghost predicate IsProgress(before: Option<int>, after: Option<int>, config: Config) {
    && (before.Some? ==> after.Some? && after.value <= before.value)
    && (Undisturbed(config) && config.stopBlock <= Start(before, config) ==> after == Some(config.stopBlock))
  }

  ghost function Blacklists(configs: seq<Config>): set<string> {
    set i, c | 0 <= i < |configs| && c in configs[i].blacklist :: c
  }

  /** Any number of runs from a fresh store, each with its own settings, stops and
      kills. `saves[i]` is the checkpoint before run i. Once one is saved every key
      between it and the top block of the first run that saved is staged, unless its
      contract was on some run's blacklist. */
  method Runs(store: ScanStore, configs: seq<Config>) returns (ghost saves: seq<Option<int>>)
    requires store.saved == None && store.staged == {}
    requires forall i | 0 <= i < |configs| :: configs[i].batch > 0
    modifies store
    ensures |saves| == |configs| + 1 && saves[0] == None && store.saved == saves[|configs|]
    ensures forall i, j | 0 <= i && j == i + 1 && j < |saves| :: IsProgress(saves[i], saves[j], configs[i])
    ensures forall i, j | 0 <= i && j == i + 1 && j < |saves| && saves[i].None? && saves[j].Some? ::
              store.saved.Some?
              && Covered(store.logs, store.saved.value, configs[i].topBlock, store.staged, Blacklists(configs))
    ensures forall k | k in store.staged :: exists b :: k in store.logs(b)
  {
    hide Covered, Descending, Blacklists;
    ghost var top := 0;
    saves := [None];
    for n := 0 to |configs|
      invariant |saves| == n + 1 && saves[0] == None && store.saved == saves[n]
      invariant store.Checkpointed(top, Blacklists(configs[..n]))
      invariant forall i, j | 0 <= i && j == i + 1 && j <= n :: IsProgress(saves[i], saves[j], configs[i])
      invariant forall i, j | 0 <= i && j == i + 1 && j <= n && saves[i].None? && saves[j].Some? ::
          store.saved.Some? && top == configs[i].topBlock
      invariant forall k | k in store.staged :: exists b :: k in store.logs(b)
    {
      ghost var before := store.staged;
      var _, ranges, persisted := Run(store, configs[n], top, Blacklists(configs[..n]));
      BlacklistsNext(configs, n);
      SavedBelow(ranges, persisted, saves[n], configs[n]);
      forall k | k in store.staged
        ensures exists b :: k in store.logs(b)
      {
        if k !in before {
          assert Logged(store.logs, configs[n].stopBlock, Start(saves[n], configs[n]), k);
        }
      }
      assert IsProgress(saves[n], store.saved, configs[n]);
      top := TopAfter(saves[n], configs[n], top);
      saves := saves + [store.saved];
    }
    assert configs[..|configs|] == configs;
  }

  lemma BlacklistsNext(configs: seq<Config>, n: nat)
    requires n < |configs|
    ensures Blacklists(configs[..n + 1]) == Blacklists(configs[..n]) + configs[n].blacklist
  {
    assert configs[..n + 1] == configs[..n] + [configs[n]];
    forall c
      ensures c in Blacklists(configs[..n + 1]) <==> c in Blacklists(configs[..n]) || c in configs[n].blacklist
    {
      if c in configs[n].blacklist {
        assert configs[..n + 1][n] == configs[n];
      }
    }
  }

  /** A run's checkpoint is at or below the one it found. */
  lemma SavedBelow(ranges: seq<Range>, persisted: nat, before: Option<int>, config: Config)
    requires Descending(ranges, Start(before, config), config.stopBlock, config.batch) && persisted <= |ranges|
    ensures var after := SavedAfter(ranges[..persisted], before);
      before.Some? ==> after.Some? && after.value <= before.value
  {
    if persisted > 0 {
      StartsBelow(ranges, Start(before, config), config.stopBlock, config.batch, persisted - 1);
    }
  }
}
