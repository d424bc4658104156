/** The journalled commit of the CSV and audit pair, one file operation at a
    time, with an exception or a kill possible before every one of them.
 */
module OutputCommit {
  import opened Orders

  /** What a file holds: the text of one generation, an earlier text of no known
      generation, or a write that was cut short. */
  datatype Content = Generation(id: nat) | Earlier(tag: nat) | Torn

  type File = Option<Content>

  datatype Pair = Pair(csv: File, audit: File)

  datatype Journal = Journal(csvExisted: bool, auditExisted: bool)

  datatype Disk = Disk(csv: File, audit: File, csvTmp: File, auditTmp: File,
                       csvBackup: File, auditBackup: File, journal: Option<Journal>)
  {
    function Outputs(): Pair { Pair(csv, audit) }
  }

  /** Where the writing process is; `Idle` when there is none. */
  datatype Pc =
    | Idle
    | RecoverCsv | RecoverAudit | RecoverUnlink
    | Stat
    | OpenCsvTmp | FillCsvTmp | OpenAuditTmp | FillAuditTmp
    | OpenCsvBackup | FillCsvBackup | OpenAuditBackup | FillAuditBackup
    | WriteJournal
    | EnterTry | ReplaceCsv | ReplaceAudit | Validate
    | UnlinkJournal
    | RollbackCsv | RollbackAudit | RollbackUnlink
    | FinallyCsvTmp | FinallyAuditTmp | FinallyCsvBackup | FinallyAuditBackup

  /** `old` is the pair the last run found after recovery, `id` the generation it
      set out to write. */
  datatype State = State(disk: Disk, pc: Pc, csvExisted: bool, auditExisted: bool, nextId: nat, id: nat, prior: Pair)
  {
    function New(): Pair { Pair(Some(Generation(id)), Some(Generation(id))) }
  }

  datatype Action = Begin(nextId: nat) | Run | Raise | Kill

  // ----- recovery, as a function of the disk -----

  /** One file of the recovery loop; None is the raised error. */
  function RestoreCsv(d: Disk, existed: bool): Option<Disk> {
    if existed then
      if d.csvBackup.None? then None else Some(d.(csv := d.csvBackup, csvBackup := None))
    else Some(d.(csv := None))
  }

  function RestoreAudit(d: Disk, existed: bool): Option<Disk> {
    if existed then
      if d.auditBackup.None? then None else Some(d.(audit := d.auditBackup, auditBackup := None))
    else Some(d.(audit := None))
  }

  datatype Outcome = Done(disk: Disk) | Failed(disk: Disk)

  /** The whole recovery, run without interruption; on an error the files stay as
      far as they were restored. */
  function Recovered(d: Disk): Outcome {
    if d.journal.None? then Done(d)
    else
      match RestoreCsv(d, d.journal.value.csvExisted)
      case None => Failed(d)
      case Some(d1) =>
        match RestoreAudit(d1, d.journal.value.auditExisted)
        case None => Failed(d1)
        case Some(d2) => Done(d2.(journal := None))
  }

  // ----- the steps -----

  /** The operation at the program counter, carried out. */
  function Do(s: State): State
    requires s.pc != Idle
  {
    var d := s.disk;
    match s.pc
    case Idle => s
    case RecoverCsv =>
      (match if d.journal.Some? then RestoreCsv(d, d.journal.value.csvExisted) else None
       case Some(d1) => s.(disk := d1, pc := RecoverAudit)
       case None => s.(pc := Idle))
    case RecoverAudit =>
      (match if d.journal.Some? then RestoreAudit(d, d.journal.value.auditExisted) else None
       case Some(d1) => s.(disk := d1, pc := RecoverUnlink)
       case None => s.(pc := Idle))
    case RecoverUnlink => s.(disk := d.(journal := None), pc := Stat)
    case Stat =>
      s.(csvExisted := d.csv.Some?, auditExisted := d.audit.Some?, id := s.nextId, prior := d.Outputs(),
         pc := OpenCsvTmp)
    case OpenCsvTmp => s.(disk := d.(csvTmp := Some(Torn)), pc := FillCsvTmp)
    case FillCsvTmp => s.(disk := d.(csvTmp := Some(Generation(s.id))), pc := OpenAuditTmp)
    case OpenAuditTmp => s.(disk := d.(auditTmp := Some(Torn)), pc := FillAuditTmp)
    case FillAuditTmp => s.(disk := d.(auditTmp := Some(Generation(s.id))), pc := OpenCsvBackup)
    case OpenCsvBackup =>
      if s.csvExisted then s.(disk := d.(csvBackup := Some(Torn)), pc := FillCsvBackup)
      else s.(pc := OpenAuditBackup)
    case FillCsvBackup => s.(disk := d.(csvBackup := d.csv), pc := OpenAuditBackup)
    case OpenAuditBackup =>
      if s.auditExisted then s.(disk := d.(auditBackup := Some(Torn)), pc := FillAuditBackup)
      else s.(pc := WriteJournal)
    case FillAuditBackup => s.(disk := d.(auditBackup := d.audit), pc := WriteJournal)
    case WriteJournal => s.(disk := d.(journal := Some(Journal(s.csvExisted, s.auditExisted))), pc := EnterTry)
    case EnterTry => s.(pc := ReplaceCsv)
    case ReplaceCsv => s.(disk := d.(csv := d.csvTmp, csvTmp := None), pc := ReplaceAudit)
    case ReplaceAudit => s.(disk := d.(audit := d.auditTmp, auditTmp := None), pc := Validate)
    case Validate => s.(pc := if d.csv == d.audit then UnlinkJournal else RollbackCsv)
    case UnlinkJournal => s.(disk := d.(journal := None), pc := FinallyCsvTmp)
    case RollbackCsv =>
      s.(disk := if s.csvExisted && d.csvBackup.Some? then d.(csv := d.csvBackup, csvBackup := None)
                 else if !s.csvExisted then d.(csv := None) else d,
         pc := RollbackAudit)
    case RollbackAudit =>
      s.(disk := if s.auditExisted && d.auditBackup.Some? then d.(audit := d.auditBackup, auditBackup := None)
                 else if !s.auditExisted then d.(audit := None) else d,
         pc := RollbackUnlink)
    case RollbackUnlink => s.(disk := d.(journal := None), pc := FinallyCsvTmp)
    case FinallyCsvTmp => s.(disk := d.(csvTmp := None), pc := FinallyAuditTmp)
    case FinallyAuditTmp => s.(disk := d.(auditTmp := None), pc := FinallyCsvBackup)
    case FinallyCsvBackup => s.(disk := d.(csvBackup := None), pc := FinallyAuditBackup)
    case FinallyAuditBackup => s.(disk := d.(auditBackup := None), pc := Idle)
  }

  /** Where an exception before the operation leads: out of recovery; to rollback
      from inside the inner try; to the clean-up from everywhere else. */
  function Raised(pc: Pc): Pc {
    match pc
    case Idle => Idle
    case RecoverCsv => Idle
    case RecoverAudit => Idle
    case RecoverUnlink => Idle
    case Stat => Idle
    case ReplaceCsv => RollbackCsv
    case ReplaceAudit => RollbackCsv
    case Validate => RollbackCsv
    case FinallyCsvTmp => Idle
    case FinallyAuditTmp => Idle
    case FinallyCsvBackup => Idle
    case FinallyAuditBackup => Idle
    case _ => FinallyCsvTmp
  }

  /** One step of the world; an action that does not apply changes nothing. */
  function Apply(s: State, a: Action): State {
    match a
    case Begin(nextId) =>
      if s.pc != Idle then s
      else s.(nextId := nextId, pc := if s.disk.journal.None? then Stat else RecoverCsv)
    case Run => if s.pc == Idle then s else Do(s)
    case Raise => if s.pc == Idle then s else s.(pc := Raised(s.pc))
    case Kill => s.(pc := Idle)
  }

  function After(s: State, actions: seq<Action>): State {
    if actions == [] then s else Apply(After(s, actions[..|actions| - 1]), actions[|actions| - 1])
  }

  // ----- the invariant -----

  /** A recorded backup, if it is still there, is the file the run found; a file recorded
      as missing was missing. */
  predicate Restorable(existed: bool, backup: File, prior: File) {
    existed == prior.Some? && (existed ==> backup.None? || backup == prior)
  }

  predicate BackedUp(existed: bool, backup: File, prior: File) {
    existed == prior.Some? && (existed ==> backup == prior)
  }

  /** The exact content the process relies on at each point. */
  predicate AtPc(s: State) {
    var d := s.disk;
    match s.pc
    case Idle => true
    case RecoverCsv => d.journal.Some?
    case RecoverAudit => d.journal.Some? && d.csv == s.prior.csv
    case RecoverUnlink => d.journal.Some? && d.Outputs() == s.prior
    case Stat => d.journal.None?
    case OpenCsvTmp => Preparing(s)
    case FillCsvTmp => Preparing(s)
    case OpenAuditTmp => Preparing(s) && d.csvTmp == s.New().csv
    case FillAuditTmp => Preparing(s) && d.csvTmp == s.New().csv
    case OpenCsvBackup => TmpsReady(s)
    case FillCsvBackup => TmpsReady(s) && s.csvExisted
    case OpenAuditBackup => TmpsReady(s) && BackedUp(s.csvExisted, d.csvBackup, s.prior.csv)
    case FillAuditBackup => TmpsReady(s) && BackedUp(s.csvExisted, d.csvBackup, s.prior.csv) && s.auditExisted
    case WriteJournal =>
      && TmpsReady(s)
      && BackedUp(s.csvExisted, d.csvBackup, s.prior.csv)
      && BackedUp(s.auditExisted, d.auditBackup, s.prior.audit)
    case EnterTry => Forward(s) && d.Outputs() == s.prior && d.csvTmp == s.New().csv && d.auditTmp == s.New().audit
    case ReplaceCsv => Forward(s) && d.Outputs() == s.prior && d.csvTmp == s.New().csv && d.auditTmp == s.New().audit
    case ReplaceAudit => Forward(s) && d.csv == s.New().csv && d.auditTmp == s.New().audit
    case Validate => Forward(s) && d.Outputs() == s.New()
    case UnlinkJournal => Forward(s) && d.Outputs() == s.New()
    case RollbackCsv => Forward(s)
    case RollbackAudit =>
      Journalled(s) && BackedUp(s.auditExisted, d.auditBackup, s.prior.audit) && d.csv == s.prior.csv
    case RollbackUnlink => Journalled(s) && d.Outputs() == s.prior
    case _ => true
  }

  /** Before the journal: the outputs are untouched. */
  predicate Preparing(s: State) {
    && s.disk.journal.None? && s.disk.Outputs() == s.prior
    && s.csvExisted == s.prior.csv.Some? && s.auditExisted == s.prior.audit.Some?
  }

  predicate TmpsReady(s: State) {
    Preparing(s) && s.disk.csvTmp == s.New().csv && s.disk.auditTmp == s.New().audit
  }

  predicate Journalled(s: State) {
    && s.disk.journal == Some(Journal(s.csvExisted, s.auditExisted))
    && s.csvExisted == s.prior.csv.Some? && s.auditExisted == s.prior.audit.Some?
  }

  /** Forward with the journal on disk: both files the run found are safe. */
  predicate Forward(s: State) {
    && Journalled(s)
    && BackedUp(s.csvExisted, s.disk.csvBackup, s.prior.csv)
    && BackedUp(s.auditExisted, s.disk.auditBackup, s.prior.audit)
  }

  /** The pair found when nothing was ever written, or one wholly written pair. */
  predicate Whole(p: Pair, initial: Pair) {
    p == initial || (p.csv.Some? && p.csv.value.Generation? && p.audit == p.csv)
  }

  predicate Inv(s: State, initial: Pair) {
    && (s.disk.journal.None? ==> s.disk.Outputs() == s.prior || s.disk.Outputs() == s.New())
    && (s.disk.journal.Some? ==>
          && Restorable(s.disk.journal.value.csvExisted, s.disk.csvBackup, s.prior.csv)
          && Restorable(s.disk.journal.value.auditExisted, s.disk.auditBackup, s.prior.audit))
    && Whole(s.prior, initial)
    && AtPc(s)
  }

  ghost predicate Init(s: State, initial: Pair) {
    s.pc == Idle && s.disk.journal.None? && s.disk.Outputs() == initial && s.prior == initial
  }

  predicate Recovering(pc: Pc) { pc == RecoverCsv || pc == RecoverAudit || pc == RecoverUnlink || pc == Stat }

  predicate Opening(pc: Pc) { pc == WriteJournal || pc == EnterTry || pc == ReplaceCsv }

  predicate Closing(pc: Pc) { pc == ReplaceAudit || pc == Validate || pc == UnlinkJournal }

  predicate RollingBack(pc: Pc) { pc == RollbackCsv || pc == RollbackAudit || pc == RollbackUnlink }

  predicate CleaningUp(pc: Pc) {
    pc == FinallyCsvTmp || pc == FinallyAuditTmp || pc == FinallyCsvBackup || pc == FinallyAuditBackup
  }

  lemma RecoveringKeeps(s: State, initial: Pair)
    requires Inv(s, initial) && Recovering(s.pc)
    ensures Inv(Do(s), initial)
  {
  }

  lemma WritingKeeps(s: State, initial: Pair)
    requires Inv(s, initial)
    requires s.pc == OpenCsvTmp || s.pc == FillCsvTmp || s.pc == OpenAuditTmp || s.pc == FillAuditTmp
    ensures Inv(Do(s), initial)
  {
  }

  lemma BackingUpKeeps(s: State, initial: Pair)
    requires Inv(s, initial)
    requires s.pc == OpenCsvBackup || s.pc == FillCsvBackup || s.pc == OpenAuditBackup || s.pc == FillAuditBackup
    ensures Inv(Do(s), initial)
  {
  }

  lemma PreparingKeeps(s: State, initial: Pair)
    requires Inv(s, initial) && s.pc != Idle
    requires !Recovering(s.pc) && !Opening(s.pc) && !Closing(s.pc) && !RollingBack(s.pc) && !CleaningUp(s.pc)
    ensures Inv(Do(s), initial)
  {
    hide Inv, Do;
    if s.pc == OpenCsvTmp || s.pc == FillCsvTmp || s.pc == OpenAuditTmp || s.pc == FillAuditTmp {
      WritingKeeps(s, initial);
    } else {
      BackingUpKeeps(s, initial);
    }
  }

  lemma OpeningKeeps(s: State, initial: Pair)
    requires Inv(s, initial) && Opening(s.pc)
    ensures Inv(Do(s), initial)
  {
  }

  lemma ClosingKeeps(s: State, initial: Pair)
    requires Inv(s, initial) && Closing(s.pc)
    ensures Inv(Do(s), initial)
  {
  }

  lemma RollingBackKeeps(s: State, initial: Pair)
    requires Inv(s, initial) && RollingBack(s.pc)
    ensures Inv(Do(s), initial)
  {
  }

  lemma CleaningUpKeeps(s: State, initial: Pair)
    requires Inv(s, initial) && CleaningUp(s.pc)
    ensures Inv(Do(s), initial)
  {
  }

  lemma RunKeeps(s: State, initial: Pair)
    requires Inv(s, initial) && s.pc != Idle
    ensures Inv(Do(s), initial)
  {
    hide Inv, Do;
    if Recovering(s.pc) {
      RecoveringKeeps(s, initial);
    } else if Opening(s.pc) {
      OpeningKeeps(s, initial);
    } else if Closing(s.pc) {
      ClosingKeeps(s, initial);
    } else if RollingBack(s.pc) {
      RollingBackKeeps(s, initial);
    } else if CleaningUp(s.pc) {
      CleaningUpKeeps(s, initial);
    } else {
      PreparingKeeps(s, initial);
    }
  }

  lemma RaiseKeeps(s: State, initial: Pair)
    requires Inv(s, initial) && s.pc != Idle
    ensures Inv(s.(pc := Raised(s.pc)), initial)
  {
  }

  /** The invariant holds after every sequence of runs, exceptions and kills. */
  lemma {:induction false} AlwaysInv(s: State, actions: seq<Action>, initial: Pair)
    requires Init(s, initial)
    ensures Inv(After(s, actions), initial)
  {
    if actions != [] {
      var t, a := After(s, actions[..|actions| - 1]), actions[|actions| - 1];
      AlwaysInv(s, actions[..|actions| - 1], initial);
      if t.pc != Idle {
        RunKeeps(t, initial);
        RaiseKeeps(t, initial);
      }
    }
  }

  // ----- what follows -----

  /** Whenever there is no journal the outputs are wholly the pair the last run
      found or wholly the pair it wrote, and so wholly the initial pair or one
      generation. */
  lemma NoJournalMeansWholePair(s: State, actions: seq<Action>, initial: Pair)
    requires Init(s, initial)
    ensures var t := After(s, actions);
            t.disk.journal.None? ==>
              (t.disk.Outputs() == t.prior || t.disk.Outputs() == t.New()) && Whole(t.disk.Outputs(), initial)
  {
    AlwaysInv(s, actions, initial);
  }

  /** The forward path while the journal is on disk. */
  predicate OnForwardPath(pc: Pc) {
    pc == EnterTry || pc == ReplaceCsv || pc == ReplaceAudit || pc == Validate || pc == UnlinkJournal
  }

  /** A kill on the forward path and one uninterrupted recovery give back exactly
      the pair the run found. */
  lemma KillThenRecoverRestores(s: State, actions: seq<Action>, initial: Pair)
    requires Init(s, initial) && OnForwardPath(After(s, actions).pc)
    ensures var t := After(s, actions + [Kill]);
            && t.disk.journal.Some? && Recovered(t.disk).Done?
            && Recovered(t.disk).disk.Outputs() == t.prior && Recovered(t.disk).disk.journal.None?
  {
    AlwaysInv(s, actions, initial);
    assert (actions + [Kill])[..|actions|] == actions;
  }

  /** Recovery ends without an error exactly when every file the journal records
      as present still has its backup; and then, in every reachable state, it
      gives back the pair the run found. */
  lemma RecoveryCondition(s: State, actions: seq<Action>, initial: Pair)
    requires Init(s, initial)
    ensures var d := After(s, actions).disk;
            d.journal.Some? ==>
              && (Recovered(d).Done? <==> (d.journal.value.csvExisted ==> d.csvBackup.Some?)
                                          && (d.journal.value.auditExisted ==> d.auditBackup.Some?))
              && (Recovered(d).Done? ==> Recovered(d).disk.Outputs() == After(s, actions).prior)
  {
    AlwaysInv(s, actions, initial);
  }

  /** n undisturbed operations. */
  function Runs(n: nat): seq<Action> { seq(n, _ => Run) }

  lemma {:induction false} AfterThen(s: State, first: seq<Action>, second: seq<Action>)
    ensures After(s, first + second) == After(After(s, first), second)
  {
    if second == [] {
      assert first + second == first;
    } else {
      var init := second[..|second| - 1];
      assert (first + second)[..|first| + |second| - 1] == first + init;
      AfterThen(s, first, init);
    }
  }

  /** `Runs` from the front: one step and then the rest. */
  lemma {:induction false} RunFrom(s: State, n: nat)
    ensures n == 0 ==> After(s, Runs(n)) == s
    ensures n > 0 ==> After(s, Runs(n)) == After(Apply(s, Run), Runs(n - 1))
  {
    if n > 0 {
      assert Runs(n) == [Run] + Runs(n - 1);
      AfterThen(s, [Run], Runs(n - 1));
      assert After(s, []) == s;
      assert After(s, [Run]) == Apply(s, Run);
    }
  }

  /** Operations left on the way to the end of an undisturbed run. */
  function Remaining(pc: Pc): nat {
    match pc
    case Stat => 19
    case OpenCsvTmp => 18
    case FillCsvTmp => 17
    case OpenAuditTmp => 16
    case FillAuditTmp => 15
    case OpenCsvBackup => 14
    case FillCsvBackup => 13
    case OpenAuditBackup => 12
    case FillAuditBackup => 11
    case WriteJournal => 10
    case EnterTry => 9
    case ReplaceCsv => 8
    case ReplaceAudit => 7
    case Validate => 6
    case UnlinkJournal => 5
    case FinallyCsvTmp => 4
    case FinallyAuditTmp => 3
    case FinallyCsvBackup => 2
    case FinallyAuditBackup => 1
    case _ => 0
  }

  /** On course: the commit has gone as planned since it found these files. */
  predicate OnCourse(s: State, found: Pair, nextId: nat) {
    var d, n := s.disk, Remaining(s.pc);
    && n > 0 && s.nextId == nextId
    && (n == 19 ==> d.journal.None? && d.Outputs() == found)
    && (n < 19 ==> s.id == nextId && s.prior == found
                   && s.csvExisted == found.csv.Some? && s.auditExisted == found.audit.Some?)
    && (5 <= n < 19 ==> AtPc(s))
    && (n <= 4 ==> d.journal.None? && d.Outputs() == s.New())
    && (n <= 3 ==> d.csvTmp.None?) && (n <= 2 ==> d.auditTmp.None?) && (n <= 1 ==> d.csvBackup.None?)
  }

  /** The pair of one generation and nothing else. */
  function OnlyPair(id: nat): Disk {
    Disk(Some(Generation(id)), Some(Generation(id)), None, None, None, None, None)
  }

  /** The next operation keeps the course or ends it. */
  predicate Continues(s: State, found: Pair, nextId: nat)
    requires s.pc != Idle
  {
    && (Remaining(s.pc) > 1 ==> OnCourse(Do(s), found, nextId) && Remaining(Do(s).pc) < Remaining(s.pc))
    && (Remaining(s.pc) > 1 && found.csv.Some? && found.audit.Some? ==> Remaining(Do(s).pc) == Remaining(s.pc) - 1)
    && (Remaining(s.pc) == 1 ==> s.prior == found && Do(s) == s.(pc := Idle, disk := OnlyPair(nextId)))
  }

  lemma StaysPreparing(s: State, found: Pair, nextId: nat)
    requires OnCourse(s, found, nextId) && 14 < Remaining(s.pc)
    ensures s.pc != Idle && Continues(s, found, nextId)
  {
  }

  lemma StaysBackingUp(s: State, found: Pair, nextId: nat)
    requires OnCourse(s, found, nextId) && 9 < Remaining(s.pc) <= 14
    ensures s.pc != Idle && Continues(s, found, nextId)
  {
  }

  lemma StaysReplacing(s: State, found: Pair, nextId: nat)
    requires OnCourse(s, found, nextId) && 6 < Remaining(s.pc) <= 9
    ensures s.pc != Idle && Continues(s, found, nextId)
  {
  }

  lemma StaysCommitting(s: State, found: Pair, nextId: nat)
    requires OnCourse(s, found, nextId) && 4 < Remaining(s.pc) <= 6
    ensures s.pc != Idle && Continues(s, found, nextId)
  {
  }

  lemma StaysCleaning(s: State, found: Pair, nextId: nat)
    requires OnCourse(s, found, nextId) && Remaining(s.pc) <= 4
    ensures s.pc != Idle && Continues(s, found, nextId)
  {
  }

  lemma StaysOnCourse(s: State, found: Pair, nextId: nat)
    requires OnCourse(s, found, nextId)
    ensures s.pc != Idle && Continues(s, found, nextId)
  {
    hide OnCourse, Continues;
    if Remaining(s.pc) > 14 {
      StaysPreparing(s, found, nextId);
    } else if Remaining(s.pc) > 9 {
      StaysBackingUp(s, found, nextId);
    } else if Remaining(s.pc) > 6 {
      StaysReplacing(s, found, nextId);
    } else if Remaining(s.pc) > 4 {
      StaysCommitting(s, found, nextId);
    } else {
      StaysCleaning(s, found, nextId);
    }
  }

  lemma {:induction false} IdleStays(s: State, n: nat)
    requires s.pc == Idle
    ensures After(s, Runs(n)) == s
  {
    RunFrom(s, n);
    if n > 0 {
      IdleStays(s, n - 1);
    }
  }

  lemma CourseStep(s: State, found: Pair, nextId: nat)
    requires OnCourse(s, found, nextId)
    ensures Remaining(s.pc) > 0
    ensures var t := Apply(s, Run);
      if Remaining(s.pc) > 1 then OnCourse(t, found, nextId) && Remaining(t.pc) < Remaining(s.pc)
      else t.pc == Idle && t.prior == found && t.disk == OnlyPair(nextId)
  {
    StaysOnCourse(s, found, nextId);
    hide OnCourse, Do;
  }

  lemma {:induction false} CourseEnds(s: State, found: Pair, nextId: nat, n: nat)
    requires OnCourse(s, found, nextId) && n >= Remaining(s.pc)
    ensures var t := After(s, Runs(n)); t.pc == Idle && t.prior == found && t.disk == OnlyPair(nextId)
    decreases n
  {
    hide *;
    CourseStep(s, found, nextId);
    RunFrom(s, n);
    if Remaining(s.pc) > 1 {
      CourseEnds(Apply(s, Run), found, nextId, n - 1);
    } else {
      IdleStays(Apply(s, Run), n - 1);
    }
  }

  lemma {:induction false} BeginThen(s: State, nextId: nat, n: nat)
    ensures After(s, [Begin(nextId)] + Runs(n)) == After(Apply(s, Begin(nextId)), Runs(n))
  {
    AfterThen(s, [Begin(nextId)], Runs(n));
    assert After(s, []) == s;
    assert After(s, [Begin(nextId)]) == Apply(s, Begin(nextId));
  }

  lemma ThreeSteps(s: State)
    requires s.pc == RecoverCsv && s.disk.journal.Some?
    ensures var t := Apply(Apply(Apply(s, Run), Run), Run);
      && t.disk == Recovered(s.disk).disk
      && (Recovered(s.disk).Done? ==> t == s.(disk := Recovered(s.disk).disk, pc := Stat))
      && (Recovered(s.disk).Failed? ==> t.pc == Idle && t.disk.journal.Some?)
  {
  }

  lemma RunThrice(s: State)
    ensures After(s, Runs(3)) == Apply(Apply(Apply(s, Run), Run), Run)
  {
    hide Apply;
    RunFrom(s, 3);
    RunFrom(Apply(s, Run), 2);
    RunFrom(Apply(Apply(s, Run), Run), 1);
    RunFrom(Apply(Apply(Apply(s, Run), Run), Run), 0);
  }

  /** Three steps after it begins over a journal, a run has done exactly what the
      function `Recovered` says: on success it stands before its own commit, on an error
      it is over and the journal is still there. */
  lemma RecoveryStepByStep(s: State, nextId: nat)
    requires s.pc == Idle && s.disk.journal.Some?
    ensures var t := After(s, [Begin(nextId)] + Runs(3));
      && t.disk == Recovered(s.disk).disk
      && (Recovered(s.disk).Done? ==> t == s.(nextId := nextId, disk := Recovered(s.disk).disk, pc := Stat))
      && (Recovered(s.disk).Failed? ==> t.pc == Idle && t.disk.journal.Some?)
  {
    var t := s.(nextId := nextId, pc := RecoverCsv);
    assert Apply(s, Begin(nextId)) == t;
    hide Apply, Recovered;
    BeginThen(s, nextId, 3);
    RunThrice(t);
    ThreeSteps(t);
  }

  lemma CourseBegins(s: State, nextId: nat)
    requires s.pc == Stat && s.nextId == nextId && s.disk.journal.None?
    ensures OnCourse(s, s.disk.Outputs(), nextId) && Remaining(s.pc) == 19
  {
  }

  lemma RecoveredJournal(d: Disk)
    ensures Recovered(d).Done? ==> Recovered(d).disk.journal.None?
    ensures d.journal.None? ==> Recovered(d) == Done(d)
  {
  }

  /** An undisturbed run commits the new pair and leaves nothing else behind, whichever of
      the two files there are and whatever journal it finds, as long as that journal can
      be recovered. Steps after its end change nothing. */
  lemma UndisturbedRunCommits(s: State, nextId: nat, n: nat)
    requires s.pc == Idle && Recovered(s.disk).Done? && n >= 22
    ensures var t := After(s, [Begin(nextId)] + Runs(n));
      t.pc == Idle && t.prior == Recovered(s.disk).disk.Outputs() && t.disk == OnlyPair(nextId)
  {
    hide *;
    RecoveredJournal(s.disk);
    if s.disk.journal.None? {
      BeginThen(s, nextId, n);
      BeginsAtOnce(s, nextId);
      CommitFrom(Apply(s, Begin(nextId)), nextId, n);
    } else {
      RecoveryStepByStep(s, nextId);
      RunsSplit(s, nextId, n);
      CommitFrom(After(s, [Begin(nextId)] + Runs(3)), nextId, n - 3);
    }
  }

  lemma BeginsAtOnce(s: State, nextId: nat)
    requires s.pc == Idle && s.disk.journal.None?
    ensures Apply(s, Begin(nextId)) == s.(nextId := nextId, pc := Stat)
  {
  }

  lemma CommitFrom(s: State, nextId: nat, n: nat)
    requires s.pc == Stat && s.nextId == nextId && s.disk.journal.None? && n >= 19
    ensures var t := After(s, Runs(n)); t.pc == Idle && t.prior == s.disk.Outputs() && t.disk == OnlyPair(nextId)
  {
    hide *;
    CourseBegins(s, nextId);
    CourseEnds(s, s.disk.Outputs(), nextId, n);
  }

  lemma RunsSplit(s: State, nextId: nat, n: nat)
    requires n >= 3
    ensures After(s, [Begin(nextId)] + Runs(n)) == After(After(s, [Begin(nextId)] + Runs(3)), Runs(n - 3))
  {
    hide After, Apply;
    AfterThen(s, [Begin(nextId)] + Runs(3), Runs(n - 3));
    assert [Begin(nextId)] + Runs(3) + Runs(n - 3) == [Begin(nextId)] + Runs(n);
  }

  // ----- exceptions -----

  /** Inside the inner try. */
  predicate InnerTry(pc: Pc) { pc == ReplaceCsv || pc == ReplaceAudit || pc == Validate }

  /** From the first temporary file up to the journal. */
  predicate BeforeJournal(pc: Pc) {
    || pc == OpenCsvTmp || pc == FillCsvTmp || pc == OpenAuditTmp || pc == FillAuditTmp
    || pc == OpenCsvBackup || pc == FillCsvBackup || pc == OpenAuditBackup || pc == FillAuditBackup
    || pc == WriteJournal
  }

  /** The pair p and nothing else. */
  function JustPair(p: Pair): Disk { Disk(p.csv, p.audit, None, None, None, None, None) }

  lemma RollbackRuns(s: State, initial: Pair)
    requires Inv(s, initial) && s.pc == RollbackCsv
    ensures var t := Apply(Apply(Apply(s, Run), Run), Run);
      t.pc == FinallyCsvTmp && t.prior == s.prior && t.disk.journal.None? && t.disk.Outputs() == s.prior
  {
  }

  lemma RaisedInnerTry(s: State, initial: Pair)
    requires Inv(s, initial) && InnerTry(s.pc)
    ensures var t := Apply(s, Raise); Inv(t, initial) && t.pc == RollbackCsv && t.prior == s.prior
  {
  }

  lemma RaisedBeforeJournal(s: State, initial: Pair)
    requires Inv(s, initial) && BeforeJournal(s.pc)
    ensures Apply(s, Raise) == s.(pc := FinallyCsvTmp) && s.disk.journal.None? && s.disk.Outputs() == s.prior
  {
  }

  lemma RaiseThenRuns(s: State, actions: seq<Action>, n: nat)
    ensures After(s, actions + [Raise] + Runs(n)) == After(Apply(After(s, actions), Raise), Runs(n))
  {
    AfterThen(s, actions + [Raise], Runs(n));
    assert (actions + [Raise])[..|actions|] == actions;
  }

  lemma RunFourTimes(s: State)
    ensures After(s, Runs(4)) == Apply(Apply(Apply(Apply(s, Run), Run), Run), Run)
  {
    hide Apply;
    RunFrom(s, 4);
    RunThrice(Apply(s, Run));
  }

  lemma CleanUpLeavesPair(s: State, n: nat)
    requires s.pc == FinallyCsvTmp && s.disk.journal.None? && n >= 4
    ensures var t := After(s, Runs(n)); t.pc == Idle && t.prior == s.prior && t.disk == JustPair(s.disk.Outputs())
  {
    CleanUpRuns(s);
    hide Apply;
    RunFourTimes(s);
    AfterThen(s, Runs(4), Runs(n - 4));
    assert Runs(4) + Runs(n - 4) == Runs(n);
    IdleStays(After(s, Runs(4)), n - 4);
  }

  /** An exception while the outputs are being replaced or validated is rolled back: the
      old pair is there again and nothing else is, neither backup nor journal. */
  lemma ExceptionIsRolledBack(s: State, actions: seq<Action>, initial: Pair, n: nat)
    requires Init(s, initial) && InnerTry(After(s, actions).pc) && n >= 7
    ensures var t := After(s, actions + [Raise] + Runs(n));
      t.pc == Idle && t.prior == After(s, actions).prior && t.disk == JustPair(t.prior)
  {
    AlwaysInv(s, actions, initial);
    var u := Apply(After(s, actions), Raise);
    RaisedInnerTry(After(s, actions), initial);
    RollbackRuns(u, initial);
    hide Apply, After, Inv, JustPair, Runs;
    RaiseThenRuns(s, actions, n);
    RunThrice(u);
    RunsAfterThree(u, n);
    CleanUpLeavesPair(After(u, Runs(3)), n - 3);
  }

  lemma RunsAfterThree(s: State, n: nat)
    requires n >= 3
    ensures After(s, Runs(n)) == After(After(s, Runs(3)), Runs(n - 3))
  {
    AfterThen(s, Runs(3), Runs(n - 3));
    assert Runs(3) + Runs(n - 3) == Runs(n);
  }

  /** An exception before the journal is written leaves the old pair and nothing else. */
  lemma ExceptionBeforeJournal(s: State, actions: seq<Action>, initial: Pair, n: nat)
    requires Init(s, initial) && BeforeJournal(After(s, actions).pc) && n >= 4
    ensures var t := After(s, actions + [Raise] + Runs(n));
      t.pc == Idle && t.prior == After(s, actions).prior && t.disk == JustPair(t.prior)
  {
    AlwaysInv(s, actions, initial);
    RaisedBeforeJournal(After(s, actions), initial);
    hide Apply, After, Inv, JustPair, Runs;
    RaiseThenRuns(s, actions, n);
    CleanUpLeavesPair(Apply(After(s, actions), Raise), n);
  }

  // ----- journals that cannot be recovered -----

  /** Outside the inner try, but with the journal written. */
  predicate BeyondRollback(pc: Pc) {
    pc == EnterTry || pc == UnlinkJournal || pc == RollbackCsv || pc == RollbackAudit || pc == RollbackUnlink
  }

  lemma CleanUpRuns(s: State)
    requires s.pc == FinallyCsvTmp
    ensures Apply(Apply(Apply(Apply(s, Run), Run), Run), Run)
            == s.(pc := Idle, disk := s.disk.(csvTmp := None, auditTmp := None, csvBackup := None, auditBackup := None))
  {
  }

  lemma JournalBeyondRollback(s: State, initial: Pair)
    requires Inv(s, initial) && BeyondRollback(s.pc)
    ensures s.disk.journal == Some(Journal(s.prior.csv.Some?, s.prior.audit.Some?))
    ensures Apply(s, Raise) == s.(pc := FinallyCsvTmp)
  {
  }

  /** An exception there, with no kill at all, makes the clean-up delete the backups while
      the journal stays. No recovery can then finish, unless the run had found neither
      file. */
  lemma ExceptionStrandsJournal(s: State, actions: seq<Action>, initial: Pair)
    requires Init(s, initial) && BeyondRollback(After(s, actions).pc)
    ensures var t := After(s, actions + [Raise, Run, Run, Run, Run]);
      && t.pc == Idle && t.prior == After(s, actions).prior
      && t.disk.journal.Some? && t.disk.csvBackup.None? && t.disk.auditBackup.None?
      && (Recovered(t.disk).Failed? <==> t.prior != Pair(None, None))
  {
    AlwaysInv(s, actions, initial);
    var t := After(s, actions);
    JournalBeyondRollback(t, initial);
    hide Apply, Inv;
    AfterThen(s, actions, [Raise, Run, Run, Run, Run]);
    AfterThen(t, [Raise], [Run, Run, Run, Run]);
    assert [Raise] + [Run, Run, Run, Run] == [Raise, Run, Run, Run, Run];
    assert After(t, []) == t && After(t, [Raise]) == Apply(t, Raise);
    var _ := FourActions(Apply(t, Raise), Run, Run, Run, Run);
    CleanUpRuns(Apply(t, Raise));
  }

  lemma NoKills(nextId: nat, n: nat)
    ensures Kill !in [Begin(nextId)] + Runs(n) + [Raise, Run, Run, Run, Run]
  {
    var all := [Begin(nextId)] + Runs(n) + [Raise, Run, Run, Run, Run];
    assert forall i | 0 <= i < |all| :: all[i] != Kill;
  }

  /** A run over two existing files that has done n operations. */
  lemma TwoFiles(nextId: nat, n: nat) returns (s: State, found: Pair)
    requires n < 19
    ensures Init(s, found) && found.csv.Some? && found.audit.Some?
    ensures var t := After(s, [Begin(nextId)] + Runs(n));
      OnCourse(t, found, nextId) && Remaining(t.pc) == 19 - n
  {
    found := Pair(Some(Earlier(0)), Some(Earlier(1)));
    s := State(Disk(found.csv, found.audit, None, None, None, None, None), Idle, false, false, 0, 0, found);
    var t := Apply(s, Begin(nextId));
    CourseBegins(t, nextId);
    hide Apply, OnCourse;
    BeginThen(s, nextId, n);
    CourseReaches(t, found, nextId, n);
  }

  /** Such a run exists: over two existing files, an exception right before the journal
      is removed. */
  lemma ExceptionIsStuck(nextId: nat)
    ensures exists s: State, actions: seq<Action>, initial: Pair ::
              && Init(s, initial) && Kill !in actions && After(s, actions).pc == Idle
              && After(s, actions).disk.journal.Some? && Recovered(After(s, actions).disk).Failed?
  {
    hide *;
    var s, found := TwoFiles(nextId, 14);
    ExceptionAfter(s, [Begin(nextId)] + Runs(14), found, nextId);
    NoKills(nextId, 14);
  }

  lemma ExceptionAfter(s: State, first: seq<Action>, found: Pair, nextId: nat)
    requires Init(s, found) && OnCourse(After(s, first), found, nextId) && Remaining(After(s, first).pc) == 5
    requires found.csv.Some?
    ensures var t := After(s, first + [Raise, Run, Run, Run, Run]);
      t.pc == Idle && t.disk.journal.Some? && Recovered(t.disk).Failed?
  {
    AtUnlink(After(s, first), found, nextId);
    hide After, Recovered, Init, OnCourse;
    ExceptionStrandsJournal(s, first, found);
  }

  lemma AtUnlink(s: State, found: Pair, nextId: nat)
    requires OnCourse(s, found, nextId) && Remaining(s.pc) == 5
    ensures s.pc == UnlinkJournal && s.prior == found
  {
  }

  /** Recovery cannot simply be run again: killed on the way forward and once
      more after it moved the first backup, it leaves a journal no recovery can
      finish. */
  lemma InterruptedRecoveryIsStuck(nextId: nat)
    ensures exists s: State, actions: seq<Action>, initial: Pair ::
              Init(s, initial) && After(s, actions).pc == Idle
              && After(s, actions).disk.journal.Some? && Recovered(After(s, actions).disk).Failed?
  {
    var s, found := TwoFiles(nextId, 10);
    var first := [Begin(nextId)] + Runs(10);
    var rest := [Kill, Begin(nextId), Run, Kill];
    MidCourse(After(s, first), found, nextId);
    AfterThen(s, first, rest);
    hide Apply, After, Recovered, Runs, Init, OnCourse;
    StuckAfterKills(After(s, first), nextId);
    assert After(s, first + rest).pc == Idle;
  }

  lemma MidCourse(s: State, found: Pair, nextId: nat)
    requires OnCourse(s, found, nextId) && Remaining(s.pc) == 9 && found.csv.Some? && found.audit.Some?
    ensures s.disk.journal == Some(Journal(true, true)) && s.disk.csvBackup.Some?
  {
  }

  lemma StuckAfterKills(s: State, nextId: nat)
    requires s.disk.journal == Some(Journal(true, true)) && s.disk.csvBackup.Some?
    ensures var t := After(s, [Kill, Begin(nextId), Run, Kill]);
            t.pc == Idle && t.disk.journal.Some? && Recovered(t.disk).Failed?
  {
    var t := FourActions(s, Kill, Begin(nextId), Run, Kill);
  }

  lemma FourActions(s: State, a: Action, b: Action, c: Action, d: Action) returns (t: State)
    ensures t == After(s, [a, b, c, d]) == Apply(Apply(Apply(Apply(s, a), b), c), d)
  {
    t := After(s, [a, b, c, d]);
    assert [a, b, c, d][..3] == [a, b, c] && [a, b, c][..2] == [a, b] && [a, b][..1] == [a] && [a][..0] == [];
    assert After(s, []) == s && After(s, [a]) == Apply(s, a);
    assert After(s, [a, b]) == Apply(Apply(s, a), b);
    assert After(s, [a, b, c]) == Apply(Apply(Apply(s, a), b), c);
  }

  lemma {:induction false} CourseReaches(s: State, found: Pair, nextId: nat, n: nat)
    requires OnCourse(s, found, nextId) && n < Remaining(s.pc) && found.csv.Some? && found.audit.Some?
    ensures OnCourse(After(s, Runs(n)), found, nextId)
    ensures Remaining(After(s, Runs(n)).pc) == Remaining(s.pc) - n
    decreases n
  {
    RunFrom(s, n);
    if n > 0 {
      StaysOnCourse(s, found, nextId);
      hide Do, OnCourse, Remaining;
      CourseReaches(Do(s), found, nextId, n - 1);
    }
  }

  // ----- the same operations on files updated in place -----

  class OutputFiles {
    var csv: File
    var audit: File
    var csvTmp: File
    var auditTmp: File
    var csvBackup: File
    var auditBackup: File
    var journal: Option<Journal>

    function OnDisk(): Disk
      reads this
    {
      Disk(csv, audit, csvTmp, auditTmp, csvBackup, auditBackup, journal)
    }

    /** `recover_output_transaction`; false is the raised error. */
    method Recover() returns (ok: bool)
      modifies this
      ensures Recovered(old(OnDisk())) == if ok then Done(OnDisk()) else Failed(OnDisk())
    {
      if journal.None? {
        return true;
      }
      var j := journal.value;
      if j.csvExisted {
        if csvBackup.None? {
          return false;
        }
        csv, csvBackup := csvBackup, None;
      } else {
        csv := None;
      }
      if j.auditExisted {
        if auditBackup.None? {
          return false;
        }
        audit, auditBackup := auditBackup, None;
      } else {
        audit := None;
      }
      journal := None;
      ok := true;
    }

    /** One undisturbed run: recover, then commit generation id. */
    method Write(id: nat) returns (ok: bool)
      modifies this
      ensures ok <==> Recovered(old(OnDisk())).Done?
      ensures ok ==> OnDisk() == Disk(Some(Generation(id)), Some(Generation(id)), None, None, None, None, None)
      ensures !ok ==> OnDisk() == Recovered(old(OnDisk())).disk
    {
      ok := Recover();
      if !ok {
        return;
      }
      var csvExisted, auditExisted := csv.Some?, audit.Some?;
      csvTmp, auditTmp := Some(Generation(id)), Some(Generation(id));
      if csvExisted {
        csvBackup := csv;
      }
      if auditExisted {
        auditBackup := audit;
      }
      journal := Some(Journal(csvExisted, auditExisted));
      csv, csvTmp := csvTmp, None;
      audit, auditTmp := auditTmp, None;
      assert csv == audit;
      journal := None;
      csvTmp, auditTmp, csvBackup, auditBackup := None, None, None, None;
    }
  }
}
