/**
 Automatic recovery terminates: while the catalogs and the resident sessions stay as they are and
 the user neither retries nor loads older pages, the number of reads the scheduler ever starts is
 bounded by `Work`, a number computed from the current state. Deferral, re-admission and the one
 round of retries that a settled history opens all stay within it.
 */
module RecoveryTermination {
  import opened Wrappers
  import opened Completion
  import opened CompletionLaws
  import opened Scheduler
  import opened SchedulerLaws

  // ---- reads left for one load ----------------------------------------

  /** Reads that may still be started for a tracked identity. */
  function EntryLeft(entry: Recovery): nat {
    match entry.status
    case Pending => Monus(MAX_RETRIES + 1, entry.attempts)
    case Retryable(_) => Monus(MAX_RETRIES + 1, entry.attempts)
    case Fetching => Monus(MAX_RETRIES, entry.attempts)
    case _ => 0
  }

  /** Reads that may still be started for the sequence `k`; an untracked one starts afresh. */
  function Left(st: State, k: nat): nat {
    if k <= st.settledThrough then 0
    else if k in st.entries then EntryLeft(st.entries[k])
    else MAX_RETRIES + 1
  }

  function TurnsLeft(st: State, turns: seq<CompletedTurn>): nat {
    if turns == [] then 0 else Left(st, turns[0].seqNo) + TurnsLeft(st, turns[1..])
  }

  /** Reads of history that may still be started, were none in flight. */
  function HistoryLeft(st: State): nat {
    if st.historyStatus.None? || st.historyStatus.value.IsOpen() then Monus(MAX_RETRIES + 1, st.historyAttempts) else 0
  }

  /** Twice the history reads still to start, and one for a read in flight: each start and each
      end of a history read makes it smaller. */
  function HistoryWork(s: Session): nat {
    if !s.HistoryRunning() then 2 * HistoryLeft(s.recovery)
    else if HistoryTask(s.recovery.gapThrough) in s.tasks then 2 * Monus(MAX_RETRIES, s.recovery.historyAttempts) + 1
    else 2 * Monus(MAX_RETRIES + 1, s.recovery.historyAttempts) + 1
  }

  // ---- pointwise comparison -------------------------------------------

  ghost predicate NoMore(after: State, before: State, turns: seq<CompletedTurn>) {
    forall i | 0 <= i < |turns| :: Left(after, turns[i].seqNo) <= Left(before, turns[i].seqNo)
  }

  lemma {:induction false} TurnsLeftMonotone(after: State, before: State, turns: seq<CompletedTurn>)
    requires NoMore(after, before, turns)
    ensures TurnsLeft(after, turns) <= TurnsLeft(before, turns)
  {
    if turns != [] {
      assert Left(after, turns[0].seqNo) <= Left(before, turns[0].seqNo);
      assert forall i | 0 <= i < |turns[1..]| :: turns[1..][i] == turns[i + 1];
      TurnsLeftMonotone(after, before, turns[1..]);
    }
  }

  lemma {:induction false} TurnsLeftStrict(after: State, before: State, turns: seq<CompletedTurn>, i: nat)
    requires NoMore(after, before, turns) && i < |turns|
    requires Left(after, turns[i].seqNo) < Left(before, turns[i].seqNo)
    ensures TurnsLeft(after, turns) < TurnsLeft(before, turns)
  {
    assert forall j | 0 <= j < |turns[1..]| :: turns[1..][j] == turns[j + 1];
    assert Left(after, turns[0].seqNo) <= Left(before, turns[0].seqNo);
    if i == 0 {
      TurnsLeftMonotone(after, before, turns[1..]);
    } else {
      TurnsLeftStrict(after, before, turns[1..], i - 1);
    }
  }

  lemma {:induction false} TurnsLeftBounded(st: State, turns: seq<CompletedTurn>)
    ensures TurnsLeft(st, turns) <= (MAX_RETRIES + 1) * |turns|
  {
    if turns != [] {
      TurnsLeftBounded(st, turns[1..]);
    }
  }

  /** Settling never adds work. */
  lemma SettlePrefixLeft(st: State, k: nat)
    ensures Left(st.SettlePrefix(), k) <= Left(st, k)
  {
    SettlePrefixRuns(st);
  }

  // ---- discovery with the same catalog --------------------------------

  /** The state describes `turn` as the directory does, if it tracks it at all. */
  ghost predicate Knows(st: State, turn: CompletedTurn) {
    turn.seqNo in st.entries ==> st.entries[turn.seqNo].turn == turn
  }

  lemma AdmitOneLeft(st: State, turn: CompletedTurn, next: CompletedTurn, capacity: nat)
    requires Knows(st, turn) && (next.seqNo == turn.seqNo ==> next == turn)
    ensures var after := st.AdmitOne(next, capacity);
            Knows(after, turn) && Left(after, turn.seqNo) == Left(st, turn.seqNo)
  {
  }

  lemma {:induction false} AdmitLeft(st: State, d: Directory, n: nat, capacity: nat, i: nat)
    requires d.WellFormed() && n <= |d.entries| && i < |d.entries| && Knows(st, d.entries[i])
    ensures var after := st.Admit(d.entries[..n], capacity);
            Knows(after, d.entries[i]) && Left(after, d.entries[i].seqNo) == Left(st, d.entries[i].seqNo)
  {
    if n != 0 {
      AdmitLeft(st, d, n - 1, capacity, i);
      assert d.entries[..n][..n - 1] == d.entries[..n - 1];
      AdmitOneLeft(st.Admit(d.entries[..n - 1], capacity), d.entries[i], d.entries[n - 1], capacity);
    }
  }

  /** Applying the current catalog again leaves the history facts and adds no turn reads. */
  lemma RediscoverLeft(st: State, d: Directory, limit: nat)
    requires Sound(st, d)
    ensures NoMore(st.Discover(d, limit), st, d.entries)
    ensures var after := st.Discover(d, limit);
            && after.gapThrough == st.gapThrough
            && after.historyStatus == st.historyStatus && after.historyAttempts == st.historyAttempts
  {
    DiscoverHistory(st, d, limit);
    var pruned := st.RaiseGap(d).Prune(d).(behind := false);
    var capacity := Min(limit, IDENTITIES_PER_LOAD);
    PruneKeeps(st, d, d);
    assert d.entries[..|d.entries|] == d.entries;
    forall i | 0 <= i < |d.entries|
      ensures Left(st.Discover(d, limit), d.entries[i].seqNo) <= Left(st, d.entries[i].seqNo)
    {
      var k := d.entries[i].seqNo;
      assert Knows(st, d.entries[i]) && Left(pruned, k) == Left(st, k);
      AdmitLeft(pruned, d, |d.entries|, capacity, i);
      SettlePrefixLeft(pruned.Admit(d.entries, capacity), k);
    }
  }

  // ---- work left for one session --------------------------------------

  /** One history step outweighs every turn read its session can still cause. */
  function Weight(s: Session): nat {
    (MAX_RETRIES + 1) * |s.catalog.entries| + 1
  }

  function SessionWork(s: Session): nat {
    HistoryWork(s) * Weight(s) + TurnsLeft(s.recovery, s.catalog.entries)
  }

  lemma WorkCompares(after: Session, before: Session)
    requires after.catalog == before.catalog && HistoryWork(after) <= HistoryWork(before)
    requires TurnsLeft(after.recovery, before.catalog.entries) <= TurnsLeft(before.recovery, before.catalog.entries)
    ensures SessionWork(after) <= SessionWork(before)
  {
    hide HistoryWork;
    hide TurnsLeft;
    assert HistoryWork(after) * Weight(before) <= HistoryWork(before) * Weight(before);
  }

  /** A step of history pays for a whole new round of turn reads. */
  lemma HistoryStepPays(after: Session, before: Session)
    requires after.catalog == before.catalog && HistoryWork(after) < HistoryWork(before)
    ensures SessionWork(after) < SessionWork(before)
  {
    hide HistoryWork;
    hide TurnsLeft;
    TurnsLeftBounded(after.recovery, after.catalog.entries);
    StepOutweighs(HistoryWork(after), HistoryWork(before), Weight(before),
                  TurnsLeft(after.recovery, after.catalog.entries));
  }

  lemma StepOutweighs(a: nat, b: nat, weight: nat, rest: nat)
    requires a < b && rest < weight
    ensures a * weight + rest < b * weight
  {
    assert (a + 1) * weight <= b * weight;
  }

  lemma RediscoverWork(s: Session, limit: nat)
    requires Consistent(s)
    ensures SessionWork(s.(recovery := s.recovery.Discover(s.catalog, limit))) <= SessionWork(s)
  {
    var after := s.(recovery := s.recovery.Discover(s.catalog, limit));
    RediscoverLeft(s.recovery, s.catalog, limit);
    TurnsLeftMonotone(after.recovery, s.recovery, s.catalog.entries);
    assert after.HistoryRunning() == s.HistoryRunning();
    WorkCompares(after, s);
  }

  lemma DeferWork(s: Session)
    requires Consistent(s)
    ensures SessionWork(s.(recovery := s.recovery.DeferUnstarted())) <= SessionWork(s)
  {
    var after := s.(recovery := s.recovery.DeferUnstarted());
    assert NoMore(after.recovery, s.recovery, s.catalog.entries);
    TurnsLeftMonotone(after.recovery, s.recovery, s.catalog.entries);
    assert after.HistoryRunning() == s.HistoryRunning();
    WorkCompares(after, s);
  }

  // ---- starting a read ------------------------------------------------

  /** After discovery only reads in flight are older than the catalog. */
  lemma DiscoverRetires(st: State, d: Directory, limit: nat)
    requires Sound(st, d)
    ensures var after := st.Discover(d, limit);
            forall k | k in after.entries && k < d.retainedFrom :: after.entries[k].status.Fetching?
  {
    var pruned := st.RaiseGap(d).Prune(d).(behind := false);
    PruneKeeps(st, d, d);
    AdmitFrame(pruned, d, |d.entries|, Min(limit, IDENTITIES_PER_LOAD));
    assert d.entries[..|d.entries|] == d.entries;
    SettlePrefixFrame(pruned.Admit(d.entries, Min(limit, IDENTITIES_PER_LOAD)));
  }

  lemma StartHistoryWork(s: Session, now: Instant)
    requires Consistent(s) && !s.HistoryRunning() && s.recovery.HistoryDue(now)
    ensures SessionWork(StartRead(s, now)) < SessionWork(s)
  {
    var after := StartRead(s, now);
    assert after.tasks[|s.tasks|] == HistoryTask(s.recovery.gapThrough);
    assert after.HistoryRunning();
    HistoryStepPays(after, s);
  }

  lemma StartTurnWork(s: Session, now: Instant)
    requires Consistent(s) && s.recovery.Ready(now).Some? && !(!s.HistoryRunning() && s.recovery.HistoryDue(now))
    requires forall k | k in s.recovery.entries && k < s.catalog.retainedFrom :: s.recovery.entries[k].status.Fetching?
    ensures SessionWork(StartRead(s, now)) < SessionWork(s)
  {
    var after := StartRead(s, now);
    var k := s.recovery.Ready(now).value.seqNo;
    assert k == Least(s.recovery.ReadyKeys(now));
    var marked := s.recovery.(entries := s.recovery.entries[k := s.recovery.entries[k].(status := Fetching)]);
    forall i | 0 <= i < |s.catalog.entries|
      ensures Left(after.recovery, s.catalog.entries[i].seqNo) <= Left(s.recovery, s.catalog.entries[i].seqNo)
    {
      SettlePrefixLeft(marked, s.catalog.entries[i].seqNo);
    }
    var i := k - s.catalog.retainedFrom;
    assert s.catalog.entries[i].seqNo == k;
    SettlePrefixLeft(marked, k);
    TurnsLeftStrict(after.recovery, s.recovery, s.catalog.entries, i);
    RecordHistory(s.recovery, k, Fetching);
    AppendedTurn(s, after, k);
    assert HistoryWork(after) == HistoryWork(s);
  }

  lemma AppendedTurn(s: Session, after: Session, k: nat)
    requires after.tasks == s.tasks + [TurnTask(k)]
    ensures after.HistoryRunning() == s.HistoryRunning()
    ensures forall t :: HistoryTask(t) in after.tasks <==> HistoryTask(t) in s.tasks
  {
    HistoryRunningIs(s);
    HistoryRunningIs(after);
  }

  lemma StartReadWork(s: Session, now: Instant)
    requires Consistent(s)
    requires forall k | k in s.recovery.entries && k < s.catalog.retainedFrom :: s.recovery.entries[k].status.Fetching?
    ensures SessionWork(StartRead(s, now)) + (|StartRead(s, now).tasks| - |s.tasks|) <= SessionWork(s)
  {
    if !s.HistoryRunning() && s.recovery.HistoryDue(now) {
      StartHistoryWork(s, now);
    } else if s.recovery.Ready(now).Some? {
      StartTurnWork(s, now);
    }
  }

  // ---- outcomes -------------------------------------------------------

  lemma RecordLeft(st: State, k: nat, status: Status, j: nat)
    requires !status.IsOpen()
    ensures Left(st.Record(k, status), j) <= Left(st, j)
  {
    var updated := if k in st.entries then st.(entries := st.entries[k := st.entries[k].(status := status)]) else st;
    SettlePrefixLeft(updated, j);
  }

  lemma RetryRetainedLeft(st: State, k: nat, retainedFrom: nat, now: Instant, j: nat)
    requires Reading(st, k)
    ensures Left(st.RetryRetained(k, retainedFrom, now), j) <= Left(st, j)
  {
    if k < retainedFrom {
      RecordLeft(st, k, Exhausted, j);
    } else {
      var attempts := st.entries[k].attempts + 1;
      var failed := st.entries[k].(attempts := attempts, status := AfterFailure(attempts, now));
      SettlePrefixLeft(st.(entries := st.entries[k := failed]), j);
    }
  }

  lemma TurnSettledLeft(s: Session, k: nat, outcome: TurnOutcome, now: Instant, j: nat)
    requires Reading(s.recovery, k)
    ensures Left(TurnSettled(s, k, outcome, now), j) <= Left(s.recovery, j)
  {
    match outcome
    case BodyComplete(true, _) => RecordLeft(s.recovery, k, Complete, j);
    case BodyPartial => RecordLeft(s.recovery, k, Partial, j);
    case BodyUnavailable => RecordLeft(s.recovery, k, Unavailable, j);
    case _ => RetryRetainedLeft(s.recovery, k, s.catalog.retainedFrom, now, j);
  }

  lemma TurnSettledGap(s: Session, k: nat, outcome: TurnOutcome, now: Instant)
    ensures TurnSettled(s, k, outcome, now).gapThrough == s.recovery.gapThrough
  {
    RecordHistory(s.recovery, k, Complete);
    RecordHistory(s.recovery, k, Partial);
    RecordHistory(s.recovery, k, Unavailable);
    RecordHistory(s.recovery, k, Exhausted);
    if k in s.recovery.entries {
      var attempts := s.recovery.entries[k].attempts + 1;
      var failed := s.recovery.entries[k].(attempts := attempts, status := AfterFailure(attempts, now));
      SettlePrefixRuns(s.recovery.(entries := s.recovery.entries[k := failed]));
    }
  }

  /** The end of a turn read leaves no more reads than before it. */
  lemma OnRecoveredWork(s: Session, k: nat, outcome: TurnOutcome, now: Instant)
    requires Consistent(s) && TurnTask(k) in s.tasks
    ensures SessionWork(OnRecovered(s, k, outcome, now)) <= SessionWork(s)
  {
    assert Reading(s.recovery, k);
    var after := OnRecovered(s, k, outcome, now);
    forall i | 0 <= i < |s.catalog.entries|
      ensures Left(after.recovery, s.catalog.entries[i].seqNo) <= Left(s.recovery, s.catalog.entries[i].seqNo)
    {
      TurnSettledLeft(s, k, outcome, now, s.catalog.entries[i].seqNo);
    }
    TurnsLeftMonotone(after.recovery, s.recovery, s.catalog.entries);
    TurnSettledKeeps(s, k, outcome, now);
    TurnSettledGap(s, k, outcome, now);
    FinishTurnRemoves(s.tasks, k);
    HistoryRunningIs(s);
    HistoryRunningIs(after);
    assert HistoryWork(after) == HistoryWork(s);
    WorkCompares(after, s);
  }

  /** The end of a history read leaves strictly less, even when it opens a new round of retries. */
  lemma OnHistoryRecoveredWork(s: Session, through: nat, outcome: HistoryOutcome, now: Instant)
    requires Consistent(s) && HistoryTask(through) in s.tasks
    ensures SessionWork(OnHistoryRecovered(s, through, outcome, now)) < SessionWork(s)
  {
    var after := OnHistoryRecovered(s, through, outcome, now);
    HistoryRunningIs(s);
    HistoryRunningIs(after);
    FinishHistoryRemoves(s.tasks);
    if HistoryTask(s.recovery.gapThrough) in s.tasks {
      SingularHistory(s.tasks, through, s.recovery.gapThrough);
    }
    if outcome.Page? && through == s.recovery.gapThrough {
      SettleHistoryGapReads(s.recovery.CoverHistory(outcome.covered, true));
    }
    HistoryStepPays(after, s);
  }

  lemma SingularHistory(tasks: seq<Task>, a: nat, b: nat)
    requires Singular(tasks) && HistoryTask(a) in tasks && HistoryTask(b) in tasks
    ensures a == b
  {
    var i :| 0 <= i < |tasks| && tasks[i] == HistoryTask(a);
    var j :| 0 <= j < |tasks| && tasks[j] == HistoryTask(b);
  }

  // ---- all sessions together ------------------------------------------

  function Work(residents: seq<Session>): nat {
    if residents == [] then 0 else SessionWork(residents[0]) + Work(residents[1..])
  }

  lemma {:induction false} WorkUpdate(residents: seq<Session>, i: nat, s: Session)
    requires i < |residents|
    ensures Work(residents[i := s]) == Work(residents) - SessionWork(residents[i]) + SessionWork(s)
  {
    if i == 0 {
      assert residents[i := s][1..] == residents[1..];
    } else {
      WorkUpdate(residents[1..], i - 1, s);
      assert residents[i := s][1..] == residents[1..][i - 1 := s];
    }
  }

  lemma {:induction false} WorkConcat(a: seq<Session>, b: seq<Session>)
    ensures Work(a + b) == Work(a) + Work(b)
  {
    if a == [] {
      assert a + b == b;
    } else {
      WorkConcat(a[1..], b);
      assert (a + b)[1..] == a[1..] + b;
    }
  }

  lemma MakeRoomWork(residents: seq<Session>, i: nat, now: Instant)
    requires Lawful(residents) && i < |residents|
    ensures Work(MakeRoom(residents, i, now).0) <= Work(residents)
  {
    var j := Donor(residents, residents[i].epoch);
    if j < |residents| {
      DeferWork(residents[j]);
      WorkUpdate(residents, j, residents[j].(recovery := residents[j].recovery.DeferUnstarted()));
    }
  }

  lemma ServeWork(roomy: seq<Session>, i: nat, limit: nat, now: Instant)
    requires Lawful(roomy) && i < |roomy|
    ensures var known := roomy[i].(recovery := roomy[i].recovery.Discover(roomy[i].catalog, limit));
            Work(roomy[i := StartRead(known, now)]) + (if |StartRead(known, now).tasks| > |known.tasks| then 1 else 0)
            <= Work(roomy)
  {
    var s := roomy[i];
    var known := s.(recovery := s.recovery.Discover(s.catalog, limit));
    DiscoverConsistent(s, s.catalog, limit);
    RediscoverWork(s, limit);
    DiscoverRetires(s.recovery, s.catalog, limit);
    StartReadWork(known, now);
    hide State.Discover;
    hide StartRead;
    hide SessionWork;
    WorkUpdate(roomy, i, StartRead(known, now));
  }

  /** Scanning a session costs nothing; starting its read costs at least one. */
  lemma RecoverResidentWork(residents: seq<Session>, epoch: nat, now: Instant)
    requires Lawful(residents)
    ensures var (after, started) := RecoverResident(residents, epoch, now);
            Work(after) + (if started then 1 else 0) <= Work(residents)
  {
    var i := Position(residents, epoch);
    if i < |residents| {
      MakeRoomLawful(residents, i, now);
      MakeRoomWork(residents, i, now);
      var (roomy, limit) := MakeRoom(residents, i, now);
      ServeWork(roomy, i, limit, now);
    }
  }

  lemma {:induction false} PassWork(p: Progress, order: seq<nat>, now: Instant)
    requires SlotsAddUp(p)
    ensures Work(Pass(p, order, now).residents) + p.slots <= Work(p.residents) + Pass(p, order, now).slots
    decreases |order|
  {
    if order != [] && p.slots != 0 {
      RecoverResidentLawful(p.residents, order[0], now);
      RecoverResidentWork(p.residents, order[0], now);
      var (residents, started) := RecoverResident(p.residents, order[0], now);
      PassWork(if started then Progress(residents, p.slots - 1, Some(order[0])) else p.(residents := residents),
               order[1..], now);
    }
  }

  lemma {:induction false} RoundsWork(n: nat, p: Progress, order: seq<nat>, now: Instant)
    requires SlotsAddUp(p)
    ensures Work(Rounds(n, p, order, now).residents) + p.slots <= Work(p.residents) + Rounds(n, p, order, now).slots
  {
    if n != 0 && p.slots != 0 {
      PassLawful(p, order, now);
      PassWork(p, order, now);
      RoundsWork(n - 1, Pass(p, order, now), order, now);
    }
  }

  lemma ScheduledWork(w: World)
    requires Lawful(w.residents)
    ensures Work(RecoverCompletions(w).residents) + Starts(w) <= Work(w.residents)
  {
    var p := Progress(w.residents, FreeSlots(w.residents), w.recoveryAfter);
    RoundsLawful(CONCURRENT, p, Rotation(w.residents, w.recoveryAfter), w.now);
    RoundsWork(CONCURRENT, p, Rotation(w.residents, w.recoveryAfter), w.now);
  }

  // ---- automatic runs -------------------------------------------------

  /** What happens by itself while catalogs and residents stay as they are. */
  ghost predicate Automatic(w: World, step: Step) {
    match step
    case Opened(_) => false
    case Tick(_) => true
    case On(epoch, act) =>
      var i := Position(w.residents, epoch);
      match act {
        case Selected => true
        case Recovered(_, _) => true
        case HistoryRecovered(_, _) => true
        case Snapshot(_, directory) => i < |w.residents| && directory == w.residents[i].catalog
        case _ => false
      }
  }

  lemma AroundOne<T>(s: seq<T>, i: nat)
    requires i < |s|
    ensures s[..i] + [s[i]] + s[i + 1..] == s
  {
  }

  lemma WorkSwaps(a: seq<Session>, b: seq<Session>, c: seq<Session>)
    ensures Work(b + a + c) == Work(a + b + c)
  {
    WorkConcat(a + b, c);
    WorkConcat(a, b);
    WorkConcat(b + a, c);
    WorkConcat(b, a);
  }

  lemma SelectedWork(residents: seq<Session>, i: nat)
    requires i < |residents|
    ensures Work([residents[i]] + residents[..i] + residents[i + 1..]) == Work(residents)
  {
    AroundOne(residents, i);
    WorkSwaps(residents[..i], [residents[i]], residents[i + 1..]);
  }

  lemma RevisedWork(s: Session, revision: nat, limit: nat)
    requires Consistent(s)
    ensures SessionWork(s.(recovery := s.recovery.(revision := revision).Discover(s.catalog, limit))) <= SessionWork(s)
  {
    var revised := s.(recovery := s.recovery.(revision := revision));
    assert Described(revised.recovery, s.catalog, |s.catalog.entries|);
    assert SameReads(revised.recovery, s.recovery);
    assert Consistent(revised);
    RediscoverWork(revised, limit);
    assert NoMore(revised.recovery, s.recovery, s.catalog.entries);
    TurnsLeftMonotone(revised.recovery, s.recovery, s.catalog.entries);
    assert revised.HistoryRunning() == s.HistoryRunning();
    WorkCompares(revised, s);
  }

  lemma HandleWork(w: World, step: Step)
    requires Lawful(w.residents) && Enabled(w, step) && Automatic(w, step)
    ensures Work(Handle(w, step).residents) <= Work(w.residents)
  {
    if step.On? {
      var i := Position(w.residents, step.epoch);
      var s := w.residents[i];
      assert Consistent(s);
      match step.act
      case Selected => SelectedWork(w.residents, i);
      case Recovered(k, outcome) =>
        OnRecoveredWork(s, k, outcome, w.now);
        WorkUpdate(w.residents, i, OnRecovered(s, k, outcome, w.now));
      case HistoryRecovered(through, result) =>
        OnHistoryRecoveredWork(s, through, result, w.now);
        WorkUpdate(w.residents, i, OnHistoryRecovered(s, through, result, w.now));
      case Snapshot(revision, directory) =>
        RevisedWork(s, revision, CapacityFor(w.residents, s.epoch));
        WorkUpdate(w.residents, i, OnSnapshot(w.residents, i, revision, directory));
      case _ =>
    }
  }

  /** Reads the scheduler starts in one step. */
  function StartsIn(w: World, step: Step): nat {
    if Schedules(w, step) then Starts(Handle(w, step)) else 0
  }

  lemma NextWork(w: World, step: Step)
    requires Lawful(w.residents) && Enabled(w, step) && Automatic(w, step)
    ensures Work(Next(w, step).residents) + StartsIn(w, step) <= Work(w.residents)
  {
    HandleWork(w, step);
    if step.On? {
      HandleActLawful(w.residents, Position(w.residents, step.epoch), step.act, w.now);
    }
    ScheduledWork(Handle(w, step));
  }

  ghost predicate AutomaticRun(w: World, steps: seq<Step>)
    decreases |steps|
  {
    steps == [] || (Enabled(w, steps[0]) && Automatic(w, steps[0]) && AutomaticRun(Next(w, steps[0]), steps[1..]))
  }

  /** All reads started over a run. */
  function ReadsStarted(w: World, steps: seq<Step>): nat
    decreases |steps|
  {
    if steps == [] then 0 else StartsIn(w, steps[0]) + ReadsStarted(Next(w, steps[0]), steps[1..])
  }

  /** However long automatic recovery runs and however every read ends, it starts at most
      `Work` reads in total. */
  lemma {:induction false} AutomaticRecoveryTerminates(w: World, steps: seq<Step>)
    requires Lawful(w.residents) && AutomaticRun(w, steps)
    ensures ReadsStarted(w, steps) + Work(After(w, steps).residents) <= Work(w.residents)
    decreases |steps|
  {
    if steps != [] {
      NextWork(w, steps[0]);
      NextLawful(w, steps[0]);
      AutomaticRecoveryTerminates(Next(w, steps[0]), steps[1..]);
    }
  }
}
