/**
 What holds in every state the scheduler can reach: each load is sound, reads in flight
 and `Fetching` identities correspond one to one, and the shared limits are respected.
 */
module SchedulerLaws {
  import opened Wrappers
  import opened Completion
  import opened CompletionLaws
  import opened Scheduler

  // ---- invariants -----------------------------------------------------

  /** No task is listed twice, and at most one reads history. */
  ghost predicate Singular(tasks: seq<Task>) {
    forall i, j | 0 <= i < j < |tasks| :: tasks[i] != tasks[j] && !(tasks[i].HistoryTask? && tasks[j].HistoryTask?)
  }

  /** Reads in flight and the statuses that wait for them agree. */
  ghost predicate TasksMatch(s: Session) {
    && (forall k :: TurnTask(k) in s.tasks <==> Reading(s.recovery, k))
    && Singular(s.tasks)
    && (s.recovery.historyStatus == Some(Fetching) ==> s.HistoryRunning())
    && (s.HistoryRunning() ==> s.recovery.historyAttempts <= MAX_RETRIES)
  }

  ghost predicate Consistent(s: Session) {
    Sound(s.recovery, s.catalog) && TasksMatch(s) && |s.recovery.entries| <= IDENTITIES_PER_LOAD
  }

  ghost predicate Distinct(residents: seq<Session>) {
    forall i, j | 0 <= i < j < |residents| :: residents[i].epoch != residents[j].epoch
  }

  ghost predicate AllConsistent(residents: seq<Session>) {
    forall i | 0 <= i < |residents| :: Consistent(residents[i])
  }

  ghost predicate WithinLimits(residents: seq<Session>) {
    && Tracked(residents) <= IDENTITIES_TOTAL
    && InFlight(residents) <= CONCURRENT
  }

  ghost predicate Lawful(residents: seq<Session>) {
    Distinct(residents) && AllConsistent(residents) && WithinLimits(residents)
  }

  // ---- sums -----------------------------------------------------------

  lemma {:induction false} SumsUpdate(residents: seq<Session>, i: nat, s: Session)
    requires i < |residents|
    ensures Tracked(residents[i := s]) == Tracked(residents) - |residents[i].recovery.entries| + |s.recovery.entries|
    ensures InFlight(residents[i := s]) == InFlight(residents) - |residents[i].tasks| + |s.tasks|
  {
    if i == 0 {
      assert residents[i := s][1..] == residents[1..];
    } else {
      SumsUpdate(residents[1..], i - 1, s);
      assert residents[i := s][1..] == residents[1..][i - 1 := s];
    }
  }

  lemma {:induction false} SumsConcat(a: seq<Session>, b: seq<Session>)
    ensures Tracked(a + b) == Tracked(a) + Tracked(b)
    ensures InFlight(a + b) == InFlight(a) + InFlight(b)
  {
    if a == [] {
      assert a + b == b;
    } else {
      SumsConcat(a[1..], b);
      assert (a + b)[1..] == a[1..] + b;
    }
  }

  lemma {:induction false} SumsCover(residents: seq<Session>, i: nat)
    requires i < |residents|
    ensures |residents[i].recovery.entries| <= Tracked(residents)
    ensures |residents[i].tasks| <= InFlight(residents)
  {
    if i != 0 {
      SumsCover(residents[1..], i - 1);
    }
  }

  /** The identities of the others are all but the session's own. */
  lemma {:induction false} OthersAreTheRest(residents: seq<Session>, i: nat)
    requires Distinct(residents) && i < |residents|
    ensures TrackedByOthers(residents, residents[i].epoch) == Tracked(residents) - |residents[i].recovery.entries|
  {
    if i == 0 {
      NoOwnEntries(residents[1..], residents[0].epoch);
    } else {
      OthersAreTheRest(residents[1..], i - 1);
    }
  }

  lemma {:induction false} NoOwnEntries(residents: seq<Session>, epoch: nat)
    requires forall i | 0 <= i < |residents| :: residents[i].epoch != epoch
    ensures TrackedByOthers(residents, epoch) == Tracked(residents)
  {
    if residents != [] {
      NoOwnEntries(residents[1..], epoch);
    }
  }

  // ---- one load -------------------------------------------------------

  /** A read of `k` is in flight, as far as the state knows. */
  ghost predicate Reading(st: State, k: nat) {
    k in st.entries && st.entries[k].status.Fetching?
  }

  ghost predicate SameReads(a: State, b: State) {
    forall k :: Reading(a, k) <==> Reading(b, k)
  }

  lemma SettlePrefixReads(st: State)
    ensures SameReads(st.SettlePrefix(), st)
  {
    SettlePrefixFrame(st);
  }

  lemma PruneReads(st: State, d: Directory)
    ensures SameReads(st.RaiseGap(d).Prune(d).(behind := false), st)
  {
    assert st.RaiseGap(d).entries == st.entries;
  }

  lemma AdmitReads(st: State, d: Directory, capacity: nat)
    requires d.WellFormed()
    ensures SameReads(st.Admit(d.entries, capacity), st)
    ensures |st.Admit(d.entries, capacity).entries| <= Max(|st.entries|, capacity)
  {
    AdmitFrame(st, d, |d.entries|, capacity);
    assert d.entries[..|d.entries|] == d.entries;
  }

  /** Applying a directory neither starts nor forgets a read, and admits no more than the limit. */
  lemma DiscoverReads(st: State, d: Directory, limit: nat)
    requires d.WellFormed()
    ensures SameReads(st.Discover(d, limit), st)
    ensures |st.Discover(d, limit).entries| <= Max(|st.entries|, Min(limit, IDENTITIES_PER_LOAD))
  {
    var pruned := st.RaiseGap(d).Prune(d).(behind := false);
    var admitted := pruned.Admit(d.entries, Min(limit, IDENTITIES_PER_LOAD));
    PruneReads(st, d);
    PrunedSize(st, d);
    AdmitReads(pruned, d, Min(limit, IDENTITIES_PER_LOAD));
    SettlePrefixReads(admitted);
    SettlePrefixFrame(admitted);
  }

  lemma PrunedSize(st: State, d: Directory)
    ensures |st.RaiseGap(d).Prune(d).entries| <= |st.entries|
  {
    var pruned := st.RaiseGap(d).Prune(d);
    SubsetSize(pruned.entries.Keys, st.entries.Keys);
    assert |pruned.entries| == |pruned.entries.Keys| && |st.entries| == |st.entries.Keys|;
  }

  /** Applying a directory changes the history facts only by raising the gap. */
  lemma DiscoverHistory(st: State, d: Directory, limit: nat)
    requires d.WellFormed()
    ensures var after := st.Discover(d, limit); var raised := st.RaiseGap(d);
            && after.historyStatus == raised.historyStatus
            && after.historyAttempts == raised.historyAttempts
            && after.gapThrough == raised.gapThrough
            && st.settledThrough <= after.settledThrough
  {
    var pruned := st.RaiseGap(d).Prune(d).(behind := false);
    var capacity := Min(limit, IDENTITIES_PER_LOAD);
    AdmitFrame(pruned, d, |d.entries|, capacity);
    assert d.entries[..|d.entries|] == d.entries;
    SettlePrefixRuns(pruned.Admit(d.entries, capacity));
  }

  lemma DiscoverConsistent(s: Session, d: Directory, limit: nat)
    requires Consistent(s) && d.WellFormed() && s.catalog.Precedes(d)
    ensures var after := s.(catalog := d, recovery := s.recovery.Discover(d, limit));
            && Consistent(after)
            && |after.recovery.entries| <= Max(|s.recovery.entries|, limit)
  {
    DiscoverKeeps(s.recovery, s.catalog, d, limit);
    DiscoverReads(s.recovery, d, limit);
    DiscoverHistory(s.recovery, d, limit);
  }

  /** A new status starts or ends exactly the read of its own identity. */
  lemma RecordReads(st: State, k: nat, status: Status)
    requires k in st.entries
    ensures forall j :: Reading(st.Record(k, status), j) <==> if j == k then status.Fetching? else Reading(st, j)
    ensures |st.Record(k, status).entries| <= |st.entries|
  {
    var updated := st.(entries := st.entries[k := st.entries[k].(status := status)]);
    SettlePrefixReads(updated);
    SettlePrefixFrame(updated);
    assert updated.entries.Keys == st.entries.Keys;
    assert |updated.entries| == |updated.entries.Keys| && |st.entries| == |st.entries.Keys|;
  }

  lemma RecordHistory(st: State, k: nat, status: Status)
    ensures var after := st.Record(k, status);
            && after.historyStatus == st.historyStatus && after.historyAttempts == st.historyAttempts
            && after.gapThrough == st.gapThrough && after.historyCoverage == st.historyCoverage
  {
    SettlePrefixRuns(if k in st.entries then st.(entries := st.entries[k := st.entries[k].(status := status)]) else st);
  }

  lemma StartHistoryConsistent(s: Session, now: Instant)
    requires Consistent(s) && !s.HistoryRunning() && s.recovery.HistoryDue(now)
    ensures Consistent(StartRead(s, now)) && |StartRead(s, now).tasks| == |s.tasks| + 1
    ensures StartRead(s, now).recovery.entries == s.recovery.entries
  {
    var after := StartRead(s, now);
    assert after.tasks[|s.tasks|].HistoryTask?;
    assert Described(after.recovery, s.catalog, |s.catalog.entries|);
    assert forall k :: Reading(after.recovery, k) <==> Reading(s.recovery, k);
    assert forall k :: TurnTask(k) in after.tasks <==> TurnTask(k) in s.tasks;
  }

  lemma StartTurnConsistent(s: Session, now: Instant)
    requires Consistent(s) && !(!s.HistoryRunning() && s.recovery.HistoryDue(now)) && s.recovery.Ready(now).Some?
    ensures Consistent(StartRead(s, now)) && |StartRead(s, now).tasks| == |s.tasks| + 1
    ensures |StartRead(s, now).recovery.entries| <= |s.recovery.entries|
  {
    var after := StartRead(s, now);
    var k := s.recovery.Ready(now).value.seqNo;
    assert k == Least(s.recovery.ReadyKeys(now));
    RecordKeeps(s.recovery, s.catalog, k, Fetching);
    RecordReads(s.recovery, k, Fetching);
    RecordHistory(s.recovery, k, Fetching);
    assert TurnTask(k) !in s.tasks;
    assert forall j :: TurnTask(j) in after.tasks <==> j == k || TurnTask(j) in s.tasks;
    assert after.HistoryRunning() ==> s.HistoryRunning() by {
      if after.HistoryRunning() {
        var i :| 0 <= i < |after.tasks| && after.tasks[i].HistoryTask?;
        assert s.tasks[i].HistoryTask?;
      }
    }
    if s.HistoryRunning() {
      var i :| 0 <= i < |s.tasks| && s.tasks[i].HistoryTask?;
      assert after.tasks[i].HistoryTask?;
    }
  }

  lemma StartReadConsistent(s: Session, now: Instant)
    requires Consistent(s)
    ensures Consistent(StartRead(s, now))
    ensures StartRead(s, now).epoch == s.epoch && StartRead(s, now).catalog == s.catalog
    ensures |StartRead(s, now).recovery.entries| <= |s.recovery.entries|
    ensures |s.tasks| <= |StartRead(s, now).tasks| <= |s.tasks| + 1
  {
    if !s.HistoryRunning() && s.recovery.HistoryDue(now) {
      StartHistoryConsistent(s, now);
    } else if s.recovery.Ready(now).Some? {
      StartTurnConsistent(s, now);
    }
  }

  // ---- deferral -------------------------------------------------------

  /** Deferral removes only an identity no read was ever started for. */
  lemma DeferConsistent(s: Session)
    requires Consistent(s) && s.recovery.Unstarted() != {}
    ensures var after := s.recovery.DeferUnstarted();
            && Consistent(s.(recovery := after))
            && |after.entries| == |s.recovery.entries| - 1
            && after.behind
            && exists k :: && k in s.recovery.Unstarted()
                           && after == s.recovery.(entries := s.recovery.entries - {k}, behind := true)
                           && forall j | j in s.recovery.Unstarted() :: j <= k
  {
    DeferKeeps(s.recovery, s.catalog);
    var k := Greatest(s.recovery.Unstarted());
    var after := s.recovery.DeferUnstarted();
    assert after.entries.Keys == s.recovery.entries.Keys - {k};
    assert |after.entries| == |after.entries.Keys| && |s.recovery.entries| == |s.recovery.entries.Keys|;
    assert SameReads(after, s.recovery);
  }

  ghost predicate SameEpochs(a: seq<Session>, b: seq<Session>) {
    |a| == |b| && forall j | 0 <= j < |a| :: a[j].epoch == b[j].epoch
  }

  /** Replacing one session by a consistent state of itself, inside the limits. */
  lemma ReplaceLawful(residents: seq<Session>, i: nat, s: Session)
    requires Lawful(residents) && i < |residents|
    requires Consistent(s) && s.epoch == residents[i].epoch
    requires Tracked(residents) - |residents[i].recovery.entries| + |s.recovery.entries| <= IDENTITIES_TOTAL
    requires InFlight(residents) - |residents[i].tasks| + |s.tasks| <= CONCURRENT
    ensures Lawful(residents[i := s]) && SameEpochs(residents[i := s], residents)
  {
    SumsUpdate(residents, i, s);
  }

  /** After the swap the load that asked still fits beside all the others. */
  lemma MakeRoomLawful(residents: seq<Session>, i: nat, now: Instant)
    requires Lawful(residents) && i < |residents|
    ensures Lawful(MakeRoom(residents, i, now).0) && SameEpochs(MakeRoom(residents, i, now).0, residents)
  {
    var j := Donor(residents, residents[i].epoch);
    if j < |residents| {
      DeferConsistent(residents[j]);
      ReplaceLawful(residents, j, residents[j].(recovery := residents[j].recovery.DeferUnstarted()));
    }
  }

  lemma MakeRoomLimit(residents: seq<Session>, i: nat, now: Instant)
    requires Lawful(residents) && i < |residents|
    ensures var (roomy, limit) := MakeRoom(residents, i, now);
            && |roomy| == |residents| && roomy[i] == residents[i]
            && InFlight(roomy) == InFlight(residents)
            && Tracked(roomy) - |roomy[i].recovery.entries| + limit <= IDENTITIES_TOTAL
  {
    hide Consistent;
    hide TrackedByOthers;
    OthersAreTheRest(residents, i);
    SumsCover(residents, i);
    var j := Donor(residents, residents[i].epoch);
    if j < |residents| {
      DeferConsistent(residents[j]);
      hide State.DeferUnstarted;
      hide Lawful;
      SumsUpdate(residents, j, residents[j].(recovery := residents[j].recovery.DeferUnstarted()));
    }
  }

  // ---- one scheduling step --------------------------------------------

  lemma RecoverResidentLawful(residents: seq<Session>, epoch: nat, now: Instant)
    requires Lawful(residents) && InFlight(residents) < CONCURRENT
    ensures var (after, started) := RecoverResident(residents, epoch, now);
            && Lawful(after) && SameEpochs(after, residents)
            && InFlight(after) == InFlight(residents) + (if started then 1 else 0)
  {
    var i := Position(residents, epoch);
    if i < |residents| {
      MakeRoomLawful(residents, i, now);
      MakeRoomLimit(residents, i, now);
      var (roomy, limit) := MakeRoom(residents, i, now);
      ServeLawful(roomy, i, limit, now);
    }
  }

  /** Serving one session with its share of the room. */
  lemma ServeLawful(roomy: seq<Session>, i: nat, limit: nat, now: Instant)
    requires Lawful(roomy) && i < |roomy| && InFlight(roomy) < CONCURRENT
    requires Tracked(roomy) - |roomy[i].recovery.entries| + limit <= IDENTITIES_TOTAL
    ensures var known := roomy[i].(recovery := roomy[i].recovery.Discover(roomy[i].catalog, limit));
            var after := roomy[i := StartRead(known, now)];
            && Lawful(after) && SameEpochs(after, roomy)
            && InFlight(after) == InFlight(roomy) + (if |StartRead(known, now).tasks| > |known.tasks| then 1 else 0)
  {
    var s := roomy[i];
    SumsCover(roomy, i);
    DiscoverConsistent(s, s.catalog, limit);
    var known := s.(recovery := s.recovery.Discover(s.catalog, limit));
    StartReadConsistent(known, now);
    SumsUpdate(roomy, i, StartRead(known, now));
    ReplaceLawful(roomy, i, StartRead(known, now));
  }

  // ---- scheduling rounds ----------------------------------------------

  /** The free slots and the reads in flight always add up to the limit. */
  ghost predicate SlotsAddUp(p: Progress) {
    Lawful(p.residents) && p.slots + InFlight(p.residents) == CONCURRENT
  }

  lemma {:induction false} PassLawful(p: Progress, order: seq<nat>, now: Instant)
    requires SlotsAddUp(p)
    ensures SlotsAddUp(Pass(p, order, now)) && SameEpochs(Pass(p, order, now).residents, p.residents)
    ensures Pass(p, order, now).slots <= p.slots
    decreases |order|
  {
    if order != [] && p.slots != 0 {
      RecoverResidentLawful(p.residents, order[0], now);
      var (residents, started) := RecoverResident(p.residents, order[0], now);
      var next := if started then Progress(residents, p.slots - 1, Some(order[0])) else p.(residents := residents);
      PassLawful(next, order[1..], now);
    }
  }

  lemma {:induction false} RoundsLawful(n: nat, p: Progress, order: seq<nat>, now: Instant)
    requires SlotsAddUp(p)
    ensures SlotsAddUp(Rounds(n, p, order, now)) && SameEpochs(Rounds(n, p, order, now).residents, p.residents)
    ensures Rounds(n, p, order, now).slots <= p.slots
  {
    if n != 0 && p.slots != 0 {
      PassLawful(p, order, now);
      RoundsLawful(n - 1, Pass(p, order, now), order, now);
    }
  }

  /** Scheduling keeps every load consistent and every shared limit; the slot count never underflows. */
  lemma ScheduledLawful(w: World)
    requires Lawful(w.residents)
    ensures SlotsAddUp(Scheduled(w)) && Lawful(RecoverCompletions(w).residents)
    ensures InFlight(RecoverCompletions(w).residents) == InFlight(w.residents) + Starts(w)
  {
    RoundsLawful(CONCURRENT, Progress(w.residents, FreeSlots(w.residents), w.recoveryAfter),
                 Rotation(w.residents, w.recoveryAfter), w.now);
  }

  // ---- outcomes -------------------------------------------------------

  lemma {:induction false} FinishTurnRemoves(tasks: seq<Task>, k: nat)
    ensures |FinishTurn(tasks, k)| <= |tasks|
    ensures forall t :: t in FinishTurn(tasks, k) <==> t in tasks && t != TurnTask(k)
  {
    if tasks != [] {
      FinishTurnRemoves(tasks[1..], k);
      assert tasks == [tasks[0]] + tasks[1..];
    }
  }

  lemma {:induction false} FinishTurnSingular(tasks: seq<Task>, k: nat)
    requires Singular(tasks)
    ensures Singular(FinishTurn(tasks, k))
  {
    if tasks != [] {
      FinishTurnRemoves(tasks[1..], k);
      FinishTurnSingular(tasks[1..], k);
      SingularCons(tasks[0], FinishTurn(tasks[1..], k), tasks[1..]);
    }
  }

  lemma SingularCons(head: Task, left: seq<Task>, tail: seq<Task>)
    requires Singular([head] + tail) && Singular(left) && forall t | t in left :: t in tail
    ensures Singular([head] + left)
  {
    forall j | 0 <= j < |left|
      ensures head != left[j] && !(head.HistoryTask? && left[j].HistoryTask?)
    {
      assert left[j] in left;
      var i :| 0 <= i < |tail| && tail[i] == left[j];
      assert ([head] + tail)[0] == head && ([head] + tail)[i + 1] == left[j];
    }
  }

  lemma {:induction false} FinishHistoryRemoves(tasks: seq<Task>)
    requires Singular(tasks)
    ensures var left := FinishHistory(tasks);
            && Singular(left) && |left| <= |tasks|
            && forall t :: t in left <==> t in tasks && !t.HistoryTask?
  {
    if tasks != [] {
      FinishHistoryRemoves(tasks[1..]);
      assert tasks == [tasks[0]] + tasks[1..];
    }
  }

  lemma HistoryRunningIs(s: Session)
    ensures s.HistoryRunning() <==> exists t :: t in s.tasks && t.HistoryTask?
  {
    if s.HistoryRunning() {
      var i :| 0 <= i < |s.tasks| && s.tasks[i].HistoryTask?;
      assert s.tasks[i] in s.tasks;
    }
    if exists t :: t in s.tasks && t.HistoryTask? {
      var t :| t in s.tasks && t.HistoryTask?;
      var i :| 0 <= i < |s.tasks| && s.tasks[i] == t;
    }
  }

  lemma RetryRetainedReads(st: State, k: nat, retainedFrom: nat, now: Instant)
    requires k in st.entries
    ensures var after := st.RetryRetained(k, retainedFrom, now);
            && (forall j :: Reading(after, j) <==> j != k && Reading(st, j))
            && |after.entries| <= |st.entries|
            && after.historyStatus == st.historyStatus && after.historyAttempts == st.historyAttempts
  {
    if k < retainedFrom {
      RecordReads(st, k, Exhausted);
      RecordHistory(st, k, Exhausted);
    } else {
      RetryLaterReads(st, k, now);
    }
  }

  lemma RetryLaterReads(st: State, k: nat, now: Instant)
    requires k in st.entries
    ensures var after := st.RetryLater(k, now);
            && (forall j :: Reading(after, j) <==> j != k && Reading(st, j))
            && |after.entries| <= |st.entries|
            && after.historyStatus == st.historyStatus && after.historyAttempts == st.historyAttempts
  {
    var attempts := st.entries[k].attempts + 1;
    var failed := st.entries[k].(attempts := attempts, status := AfterFailure(attempts, now));
    var updated := st.(entries := st.entries[k := failed]);
    hide State.SettlePrefix;
    SettlePrefixReads(updated);
    SettlePrefixFrame(updated);
    SettlePrefixRuns(updated);
    assert updated.entries.Keys == st.entries.Keys;
    assert |updated.entries| == |updated.entries.Keys| && |st.entries| == |st.entries.Keys|;
  }

  lemma TurnSettledKeeps(s: Session, k: nat, outcome: TurnOutcome, now: Instant)
    requires Consistent(s) && TurnTask(k) in s.tasks
    ensures var after := TurnSettled(s, k, outcome, now);
            && Sound(after, s.catalog)
            && (forall j :: Reading(after, j) <==> j != k && Reading(s.recovery, j))
            && |after.entries| <= |s.recovery.entries|
            && after.historyStatus == s.recovery.historyStatus && after.historyAttempts == s.recovery.historyAttempts
  {
    assert Reading(s.recovery, k);
    match outcome
    case BodyComplete(true, _) =>
      RecordKeeps(s.recovery, s.catalog, k, Complete);
      RecordReads(s.recovery, k, Complete);
      RecordHistory(s.recovery, k, Complete);
    case BodyPartial =>
      RecordKeeps(s.recovery, s.catalog, k, Partial);
      RecordReads(s.recovery, k, Partial);
      RecordHistory(s.recovery, k, Partial);
    case BodyUnavailable =>
      RecordKeeps(s.recovery, s.catalog, k, Unavailable);
      RecordReads(s.recovery, k, Unavailable);
      RecordHistory(s.recovery, k, Unavailable);
    case _ =>
      RetryRetainedKeeps(s.recovery, s.catalog, k, s.catalog.retainedFrom, now);
      RetryRetainedReads(s.recovery, k, s.catalog.retainedFrom, now);
  }

  /** The outcome of a read finds its identity, ends that read and no other. */
  lemma OnRecoveredConsistent(s: Session, k: nat, outcome: TurnOutcome, now: Instant)
    requires Consistent(s) && TurnTask(k) in s.tasks
    ensures k in s.recovery.entries
    ensures var after := OnRecovered(s, k, outcome, now);
            && Consistent(after) && after.epoch == s.epoch
            && |after.tasks| <= |s.tasks| && |after.recovery.entries| <= |s.recovery.entries|
            && TurnTask(k) !in after.tasks && !Reading(after.recovery, k)
  {
    var after := OnRecovered(s, k, outcome, now);
    assert Reading(s.recovery, k);
    FinishTurnRemoves(s.tasks, k);
    FinishTurnSingular(s.tasks, k);
    TurnSettledKeeps(s, k, outcome, now);
    HistoryRunningIs(s);
    HistoryRunningIs(after);
    var settled := TurnSettled(s, k, outcome, now);
    if after.recovery != settled {
      assert after.recovery == settled.(historyStatus := Some(Pending));
      assert Described(after.recovery, s.catalog, |s.catalog.entries|);
      assert SameReads(after.recovery, settled);
    }
  }

  lemma RetryFailedReads(st: State)
    ensures SameReads(st.RetryFailed(), st)
    ensures |st.RetryFailed().entries| == |st.entries|
  {
    assert st.RetryFailed().entries.Keys == st.entries.Keys;
    assert |st.RetryFailed().entries| == |st.RetryFailed().entries.Keys| && |st.entries| == |st.entries.Keys|;
  }

  lemma SettleHistoryGapReads(st: State)
    ensures var after := st.SettleHistoryGap();
            && SameReads(after, st) && |after.entries| <= |st.entries|
            && after.historyAttempts == st.historyAttempts
            && after.historyStatus == if st.GapIsProven() then Some(Partial) else st.historyStatus
  {
    if st.GapIsProven() {
      var settled := st.(settledThrough := Max(st.settledThrough, st.gapThrough), historyStatus := Some(Partial));
      SettlePrefixRuns(settled);
      SettlePrefixReads(settled);
      SettlePrefixFrame(settled);
      assert SameReads(settled, st);
    }
  }

  /** What a merged page leaves of the recovery state. */
  lemma PageKeeps(s: Session, through: nat, covered: Coverage, now: Instant)
    requires Consistent(s) && s.HistoryRunning()
    ensures var after := OnHistoryRecovered(s, through, Page(covered), now).recovery;
            && Sound(after, s.catalog) && SameReads(after, s.recovery) && |after.entries| <= |s.recovery.entries|
            && after.historyStatus != Some(Fetching)
  {
    var merged := s.recovery.CoverHistory(covered, true);
    MergeKeeps(s.recovery, s.catalog, covered, true);
    if through != s.recovery.gapThrough {
      MarkHistoryKeeps(merged, s.catalog, Pending);
    } else if !merged.GapIsProven() {
      MarkHistoryKeeps(merged, s.catalog, Exhausted);
    } else {
      SettleHistoryGapKeeps(merged, s.catalog);
      SettleHistoryGapReads(merged);
      RetryFailedKeeps(merged.SettleHistoryGap(), s.catalog);
      RetryFailedReads(merged.SettleHistoryGap());
    }
  }

  lemma HistoryEndKeeps(s: Session, through: nat, outcome: HistoryOutcome, now: Instant)
    requires Consistent(s) && s.HistoryRunning() && !outcome.Page?
    ensures var after := OnHistoryRecovered(s, through, outcome, now).recovery;
            && Sound(after, s.catalog) && SameReads(after, s.recovery) && after.entries == s.recovery.entries
            && after.historyStatus != Some(Fetching)
  {
    var after := OnHistoryRecovered(s, through, outcome, now).recovery;
    assert Described(after, s.catalog, |s.catalog.entries|);
  }

  lemma OnHistoryRecoveredConsistent(s: Session, through: nat, outcome: HistoryOutcome, now: Instant)
    requires Consistent(s) && HistoryTask(through) in s.tasks
    ensures var after := OnHistoryRecovered(s, through, outcome, now);
            && Consistent(after) && after.epoch == s.epoch && !after.HistoryRunning()
            && |after.tasks| <= |s.tasks| && |after.recovery.entries| <= |s.recovery.entries|
  {
    var after := OnHistoryRecovered(s, through, outcome, now);
    HistoryRunningIs(s);
    HistoryRunningIs(after);
    FinishHistoryRemoves(s.tasks);
    if outcome.Page? {
      PageKeeps(s, through, outcome.covered, now);
    } else {
      HistoryEndKeeps(s, through, outcome, now);
    }
  }

  lemma OnOlderPageConsistent(s: Session, covered: Coverage)
    requires Consistent(s)
    ensures var after := OnOlderPage(s, covered);
            && Consistent(after) && after.epoch == s.epoch && after.tasks == s.tasks
            && |after.recovery.entries| <= |s.recovery.entries|
  {
    var merged := s.recovery.CoverHistory(covered, false);
    MergeKeeps(s.recovery, s.catalog, covered, false);
    SettleHistoryGapKeeps(merged, s.catalog);
    SettleHistoryGapReads(merged);
    assert SameReads(merged, s.recovery);
  }

  lemma UserRetryConsistent(s: Session)
    requires Consistent(s)
    ensures Consistent(s.(recovery := s.recovery.RetryFailed()))
    ensures |s.recovery.RetryFailed().entries| == |s.recovery.entries|
  {
    RetryFailedKeeps(s.recovery, s.catalog);
    RetryFailedReads(s.recovery);
  }

  lemma RevisedConsistent(s: Session, revision: nat)
    requires Consistent(s)
    ensures Consistent(s.(recovery := s.recovery.(revision := revision)))
  {
    var revised := s.(recovery := s.recovery.(revision := revision));
    assert Described(revised.recovery, s.catalog, |s.catalog.entries|);
    assert SameReads(revised.recovery, s.recovery);
  }

  lemma OnSnapshotConsistent(residents: seq<Session>, i: nat, revision: nat, directory: Directory)
    requires Lawful(residents) && i < |residents| && Allowed(residents[i], Snapshot(revision, directory))
    ensures var after := OnSnapshot(residents, i, revision, directory);
            && Consistent(after) && after.epoch == residents[i].epoch && after.tasks == residents[i].tasks
            && Tracked(residents) - |residents[i].recovery.entries| + |after.recovery.entries| <= IDENTITIES_TOTAL
  {
    var s := residents[i];
    OthersAreTheRest(residents, i);
    SumsCover(residents, i);
    if s.recovery.revision < revision {
      RevisedConsistent(s, revision);
      DiscoverConsistent(s.(recovery := s.recovery.(revision := revision)), directory, CapacityFor(residents, s.epoch));
    }
  }

  // ---- the application ------------------------------------------------

  lemma RemoveSums(residents: seq<Session>, i: nat)
    requires i < |residents|
    ensures var without := residents[..i] + residents[i + 1..];
            && Tracked(residents) == |residents[i].recovery.entries| + Tracked(without)
            && InFlight(residents) == |residents[i].tasks| + InFlight(without)
  {
    assert residents == residents[..i] + ([residents[i]] + residents[i + 1..]);
    SumsConcat(residents[..i], [residents[i]] + residents[i + 1..]);
    SumsConcat([residents[i]], residents[i + 1..]);
    SumsConcat(residents[..i], residents[i + 1..]);
  }

  lemma RemoveLawful(residents: seq<Session>, i: nat)
    requires Lawful(residents) && i < |residents|
    ensures Lawful(residents[..i] + residents[i + 1..])
    ensures forall s | s in residents[..i] + residents[i + 1..] :: s.epoch != residents[i].epoch
  {
    hide Consistent;
    hide Tracked;
    hide InFlight;
    RemoveSums(residents, i);
  }

  lemma SelectLawful(residents: seq<Session>, i: nat)
    requires Lawful(residents) && i < |residents|
    ensures Lawful([residents[i]] + residents[..i] + residents[i + 1..])
  {
    hide Consistent;
    var without := residents[..i] + residents[i + 1..];
    assert Consistent(residents[i]);
    RemoveSums(residents, i);
    SumsConcat([residents[i]], without);
    RemoveLawful(residents, i);
    ConsLawful(residents[i], without);
    assert [residents[i]] + residents[..i] + residents[i + 1..] == [residents[i]] + without;
  }

  lemma ConsLawful(s: Session, rest: seq<Session>)
    requires Lawful(rest) && Consistent(s) && WithinLimits([s] + rest)
    requires forall j | 0 <= j < |rest| :: rest[j].epoch != s.epoch
    ensures Lawful([s] + rest)
  {
    forall j | 0 <= j < |[s] + rest|
      ensures Consistent(([s] + rest)[j])
    {
      assert j == 0 || ([s] + rest)[j] == rest[j - 1];
    }
  }

  lemma HandleActLawful(residents: seq<Session>, i: nat, act: Act, now: Instant)
    requires Lawful(residents) && i < |residents| && Allowed(residents[i], act)
    ensures Lawful(HandleAct(residents, i, act, now))
  {
    var s := residents[i];
    SumsCover(residents, i);
    match act
    case Closed => RemoveLawful(residents, i);
    case Selected => SelectLawful(residents, i);
    case Snapshot(revision, directory) =>
      OnSnapshotConsistent(residents, i, revision, directory);
      ReplaceLawful(residents, i, OnSnapshot(residents, i, revision, directory));
    case Recovered(k, outcome) =>
      OnRecoveredConsistent(s, k, outcome, now);
      ReplaceLawful(residents, i, OnRecovered(s, k, outcome, now));
    case HistoryRecovered(through, result) =>
      OnHistoryRecoveredConsistent(s, through, result, now);
      ReplaceLawful(residents, i, OnHistoryRecovered(s, through, result, now));
    case UserRetry =>
      UserRetryConsistent(s);
      ReplaceLawful(residents, i, s.(recovery := s.recovery.RetryFailed()));
    case OlderPage(covered) =>
      OnOlderPageConsistent(s, covered);
      ReplaceLawful(residents, i, OnOlderPage(s, covered));
  }

  lemma OpenedLawful(residents: seq<Session>, epoch: nat)
    requires Lawful(residents) && Position(residents, epoch) == |residents|
    ensures Lawful(residents + [Session(epoch, Unpublished, Fresh, [])])
  {
    var s := Session(epoch, Unpublished, Fresh, []);
    assert Consistent(s);
    SumsConcat(residents, [s]);
    assert Tracked([s]) == 0 && InFlight([s]) == 0;
  }

  lemma HandledLawful(w: World, step: Step)
    requires Lawful(w.residents) && Enabled(w, step)
    ensures Lawful(Handle(w, step).residents)
  {
    match step
    case Opened(epoch) => OpenedLawful(w.residents, epoch);
    case Tick(_) =>
    case On(epoch, act) => HandleActLawful(w.residents, Position(w.residents, epoch), act, w.now);
  }

  /** Every handler, with the scheduling round it ends in, keeps the invariant. */
  lemma NextLawful(w: World, step: Step)
    requires Lawful(w.residents) && Enabled(w, step)
    ensures Lawful(Next(w, step).residents)
  {
    HandledLawful(w, step);
    ScheduledLawful(Handle(w, step));
  }

  // ---- whole runs -----------------------------------------------------

  ghost predicate RunsFrom(w: World, steps: seq<Step>)
    decreases |steps|
  {
    steps == [] || (Enabled(w, steps[0]) && RunsFrom(Next(w, steps[0]), steps[1..]))
  }

  function After(w: World, steps: seq<Step>): World
    decreases |steps|
  {
    if steps == [] then w else After(Next(w, steps[0]), steps[1..])
  }

  lemma {:induction false} ReachableLawful(w: World, steps: seq<Step>)
    requires Lawful(w.residents) && RunsFrom(w, steps)
    ensures Lawful(After(w, steps).residents)
    decreases |steps|
  {
    if steps != [] {
      NextLawful(w, steps[0]);
      ReachableLawful(Next(w, steps[0]), steps[1..]);
    }
  }

  /** In every reachable state: no published completion is lost, and an open catalog gap always has
      a history read pending, running or failed. */
  lemma NothingIsEverLost(steps: seq<Step>, i: nat, k: nat)
    requires RunsFrom(Start, steps) && i < |After(Start, steps).residents|
    ensures var s := After(Start, steps).residents[i];
            && (1 <= k <= s.recovery.observedThrough ==>
                  || k <= s.recovery.settledThrough
                  || k in s.recovery.entries
                  || k <= s.recovery.gapThrough
                  || (s.recovery.behind && exists j :: 0 <= j < |s.catalog.entries| && s.catalog.entries[j].seqNo == k))
            && (s.recovery.settledThrough < s.recovery.gapThrough ==>
                  s.recovery.historyStatus.Some? && s.recovery.historyStatus != Some(Partial))
  {
    ReachableLawful(Start, steps);
    var s := After(Start, steps).residents[i];
    assert Consistent(s);
    if 1 <= k <= s.recovery.observedThrough {
      NothingIsLost(s.recovery, s.catalog, k);
    }
  }

  /** In every reachable state: a turn read is in flight exactly for the identities marked `Fetching`,
      once each, and a history status `Fetching` means a history read is in flight. */
  lemma ReadsMatchStatuses(steps: seq<Step>, i: nat, k: nat)
    requires RunsFrom(Start, steps) && i < |After(Start, steps).residents|
    ensures var s := After(Start, steps).residents[i];
            && (TurnTask(k) in s.tasks <==> k in s.recovery.entries && s.recovery.entries[k].status == Fetching)
            && (forall a, b | 0 <= a < b < |s.tasks| :: s.tasks[a] != s.tasks[b])
            && (s.recovery.historyStatus == Some(Fetching) ==> exists through :: HistoryTask(through) in s.tasks)
  {
    ReachableLawful(Start, steps);
    var s := After(Start, steps).residents[i];
    assert Consistent(s);
    assert TurnTask(k) in s.tasks <==> Reading(s.recovery, k);
    HistoryRunningIs(s);
    if s.HistoryRunning() {
      var t :| t in s.tasks && t.HistoryTask?;
      assert HistoryTask(t.through) in s.tasks;
    }
  }

  /** In every reachable state: at most 256 identities per load, 1024 together, and one read in flight. */
  lemma LimitsHold(steps: seq<Step>, i: nat)
    requires RunsFrom(Start, steps)
    ensures var w := After(Start, steps);
            && (i < |w.residents| ==> |w.residents[i].recovery.entries| <= IDENTITIES_PER_LOAD)
            && Tracked(w.residents) <= IDENTITIES_TOTAL
            && InFlight(w.residents) <= CONCURRENT
            && FreeSlots(w.residents) == CONCURRENT - InFlight(w.residents)
  {
    ReachableLawful(Start, steps);
    if i < |After(Start, steps).residents| {
      assert Consistent(After(Start, steps).residents[i]);
    }
  }
}
