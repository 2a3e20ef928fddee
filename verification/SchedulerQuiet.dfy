/**
 When recovery comes to rest. With no read in flight and no retry waiting, every published completion
 is settled, has failed for good, or is left out because the identity limits are used up. The last
 holds as long as no session kept an identity that its catalog dropped while the identity was read:
 pruning such an identity gives room back that a session scanned before does not see.
 */
module SchedulerQuiet {
  import opened Wrappers
  import opened Completion
  import opened CompletionLaws
  import opened Scheduler
  import opened SchedulerLaws
  import opened SchedulerFairness
  import opened SchedulerWork

  // ---- settled prefixes -------------------------------------------------

  /** The watermark is as far as the settled identities carry it. */
  ghost predicate Trimmed(st: State) {
    !(st.settledThrough + 1 in st.entries && st.entries[st.settledThrough + 1].status.IsSettled())
  }

  /** A history is never complete or unavailable, only read in part. */
  ghost predicate HistoryKinds(st: State) {
    st.historyStatus.Some? ==> !st.historyStatus.value.Complete? && !st.historyStatus.value.Unavailable?
  }

  ghost predicate Tidy(st: State) {
    Trimmed(st) && HistoryKinds(st)
  }

  ghost predicate AllTidy(residents: seq<Session>) {
    forall i | 0 <= i < |residents| :: Tidy(residents[i].recovery)
  }

  lemma SettledTidy(st: State)
    requires HistoryKinds(st)
    ensures Tidy(st.SettlePrefix())
  {
    SettlePrefixRuns(st);
  }

  lemma DiscoverTidy(st: State, d: Directory, limit: nat)
    requires d.WellFormed() && HistoryKinds(st)
    ensures Tidy(st.Discover(d, limit))
  {
    var pruned := st.RaiseGap(d).Prune(d).(behind := false);
    var capacity := Min(limit, IDENTITIES_PER_LOAD);
    AdmitFrame(pruned, d, |d.entries|, capacity);
    assert d.entries[..|d.entries|] == d.entries;
    SettledTidy(pruned.Admit(d.entries, capacity));
  }

  lemma RecordTidy(st: State, k: nat, status: Status)
    requires HistoryKinds(st)
    ensures Tidy(st.Record(k, status))
  {
    SettledTidy(if k in st.entries then st.(entries := st.entries[k := st.entries[k].(status := status)]) else st);
  }

  lemma RetryRetainedTidy(st: State, k: nat, retainedFrom: nat, now: Instant)
    requires Tidy(st)
    ensures Tidy(st.RetryRetained(k, retainedFrom, now))
  {
    if k < retainedFrom {
      RecordTidy(st, k, Exhausted);
    } else if k in st.entries {
      var attempts := st.entries[k].attempts + 1;
      var failed := st.entries[k].(attempts := attempts, status := AfterFailure(attempts, now));
      SettledTidy(st.(entries := st.entries[k := failed]));
    }
  }

  lemma RetryFailedTidy(st: State)
    requires Tidy(st)
    ensures Tidy(st.RetryFailed())
  {
  }

  lemma SettleHistoryGapTidy(st: State)
    requires Tidy(st)
    ensures Tidy(st.SettleHistoryGap())
  {
    SettledTidy(st.(settledThrough := Max(st.settledThrough, st.gapThrough), historyStatus := Some(Partial)));
  }

  lemma CoverHistoryTidy(st: State, covered: Coverage, authoritative: bool)
    requires Tidy(st)
    ensures Tidy(st.CoverHistory(covered, authoritative))
  {
  }

  lemma OnRecoveredTidy(s: Session, k: nat, outcome: TurnOutcome, now: Instant)
    requires Tidy(s.recovery)
    ensures Tidy(OnRecovered(s, k, outcome, now).recovery)
  {
    RecordTidy(s.recovery, k, Complete);
    RecordTidy(s.recovery, k, Partial);
    RecordTidy(s.recovery, k, Unavailable);
    RetryRetainedTidy(s.recovery, k, s.catalog.retainedFrom, now);
    hide State.Record;
    hide State.RetryRetained;
  }

  lemma OnHistoryRecoveredTidy(s: Session, through: nat, outcome: HistoryOutcome, now: Instant)
    requires Tidy(s.recovery)
    ensures Tidy(OnHistoryRecovered(s, through, outcome, now).recovery)
  {
    if outcome.Page? {
      var merged := s.recovery.CoverHistory(outcome.covered, true);
      CoverHistoryTidy(s.recovery, outcome.covered, true);
      SettleHistoryGapTidy(merged);
      RetryFailedTidy(merged.SettleHistoryGap());
      hide State.CoverHistory;
      hide State.SettleHistoryGap;
      hide State.RetryFailed;
    }
  }

  lemma OnOlderPageTidy(s: Session, covered: Coverage)
    requires Tidy(s.recovery)
    ensures Tidy(OnOlderPage(s, covered).recovery)
  {
    CoverHistoryTidy(s.recovery, covered, false);
    SettleHistoryGapTidy(s.recovery.CoverHistory(covered, false));
  }

  lemma OnSnapshotTidy(residents: seq<Session>, i: nat, revision: nat, directory: Directory)
    requires i < |residents| && Tidy(residents[i].recovery)
    requires revision > residents[i].recovery.revision ==> directory.WellFormed()
    ensures Tidy(OnSnapshot(residents, i, revision, directory).recovery)
  {
    var s := residents[i];
    if revision > s.recovery.revision {
      DiscoverTidy(s.recovery.(revision := revision), directory, CapacityFor(residents, s.epoch));
      hide State.Discover;
    }
  }

  lemma HandleActTidy(residents: seq<Session>, i: nat, act: Act, now: Instant)
    requires i < |residents| && AllTidy(residents) && Allowed(residents[i], act)
    ensures AllTidy(HandleAct(residents, i, act, now))
  {
    hide OnSnapshot;
    hide OnRecovered;
    hide OnHistoryRecovered;
    hide OnOlderPage;
    hide State.RetryFailed;
    hide Trimmed;
    hide HistoryKinds;
    match act
    case Snapshot(revision, directory) => OnSnapshotTidy(residents, i, revision, directory);
    case Recovered(k, outcome) => OnRecoveredTidy(residents[i], k, outcome, now);
    case HistoryRecovered(through, result) => OnHistoryRecoveredTidy(residents[i], through, result, now);
    case UserRetry => RetryFailedTidy(residents[i].recovery);
    case OlderPage(covered) => OnOlderPageTidy(residents[i], covered);
    case _ =>
  }

  lemma HandleTidy(w: World, step: Step)
    requires Enabled(w, step) && AllTidy(w.residents)
    ensures AllTidy(Handle(w, step).residents)
  {
    if step.On? {
      HandleActTidy(w.residents, Position(w.residents, step.epoch), step.act, w.now);
      hide HandleAct;
    }
  }

  lemma StartReadTidy(s: Session, now: Instant)
    requires Tidy(s.recovery)
    ensures Tidy(StartRead(s, now).recovery)
  {
    match s.recovery.Ready(now)
    case Some(turn) => RecordTidy(s.recovery, turn.seqNo, Fetching);
    case None =>
  }

  lemma DeferTidy(st: State)
    requires Tidy(st)
    ensures Tidy(st.DeferUnstarted())
  {
  }

  lemma MakeRoomTidy(residents: seq<Session>, i: nat, now: Instant)
    requires i < |residents| && AllTidy(residents)
    ensures AllTidy(MakeRoom(residents, i, now).0)
  {
    hide State.DeferUnstarted;
    hide Tidy;
    hide CapacityFor;
    hide Starved;
    var j := Donor(residents, residents[i].epoch);
    if j < |residents| {
      DeferTidy(residents[j].recovery);
    }
  }

  lemma ServeTidy(s: Session, limit: nat, now: Instant)
    requires s.catalog.WellFormed() && Tidy(s.recovery)
    ensures Tidy(StartRead(s.(recovery := s.recovery.Discover(s.catalog, limit)), now).recovery)
  {
    hide State.Discover;
    DiscoverTidy(s.recovery, s.catalog, limit);
    StartReadTidy(s.(recovery := s.recovery.Discover(s.catalog, limit)), now);
  }

  lemma LawfulIsWellFormed(residents: seq<Session>, i: nat)
    requires Lawful(residents) && i < |residents|
    ensures residents[i].catalog.WellFormed()
  {
    assert Consistent(residents[i]);
  }

  lemma RecoverResidentTidy(residents: seq<Session>, epoch: nat, now: Instant)
    requires Lawful(residents) && AllTidy(residents)
    ensures AllTidy(RecoverResident(residents, epoch, now).0)
  {
    hide Lawful;
    hide MakeRoom;
    hide StartRead;
    hide State.Discover;
    hide Tidy;
    var i := Position(residents, epoch);
    if i < |residents| {
      MakeRoomLawful(residents, i, now);
      MakeRoomTidy(residents, i, now);
      var (roomy, limit) := MakeRoom(residents, i, now);
      LawfulIsWellFormed(roomy, i);
      ServeTidy(roomy[i], limit, now);
    }
  }

  lemma {:induction false} PassTidy(p: Progress, order: seq<nat>, now: Instant)
    requires SlotsAddUp(p) && AllTidy(p.residents)
    ensures AllTidy(Pass(p, order, now).residents)
    decreases |order|
  {
    if order != [] && p.slots != 0 {
      RecoverResidentLawful(p.residents, order[0], now);
      RecoverResidentTidy(p.residents, order[0], now);
      var (residents, started) := RecoverResident(p.residents, order[0], now);
      PassTidy(if started then Progress(residents, p.slots - 1, Some(order[0])) else p.(residents := residents),
               order[1..], now);
    }
  }

  lemma {:induction false} RoundsTidy(n: nat, p: Progress, order: seq<nat>, now: Instant)
    requires SlotsAddUp(p) && AllTidy(p.residents)
    ensures AllTidy(Rounds(n, p, order, now).residents)
  {
    if n != 0 && p.slots != 0 {
      PassLawful(p, order, now);
      PassTidy(p, order, now);
      RoundsTidy(n - 1, Pass(p, order, now), order, now);
    }
  }

  lemma ScheduledTidy(w: World)
    requires Lawful(w.residents) && AllTidy(w.residents)
    ensures AllTidy(RecoverCompletions(w).residents)
  {
    RoundsTidy(CONCURRENT, Progress(w.residents, FreeSlots(w.residents), w.recoveryAfter),
               Rotation(w.residents, w.recoveryAfter), w.now);
  }

  lemma NextTidy(w: World, step: Step)
    requires Lawful(w.residents) && Enabled(w, step) && AllTidy(w.residents)
    ensures AllTidy(Next(w, step).residents)
  {
    HandledLawful(w, step);
    HandleTidy(w, step);
    ScheduledTidy(Handle(w, step));
  }

  // ---- sessions that want a read ----------------------------------------

  /** The watermark has not passed `k`, and no identity tracks it. */
  predicate Untracked(st: State, k: nat) {
    st.settledThrough < k && k !in st.entries
  }

  predicate LeavesOut(s: Session) {
    exists j :: 0 <= j < |s.catalog.entries| && Untracked(s.recovery, s.catalog.entries[j].seqNo)
  }

  /** The room that the other sessions and the limit of one load leave. */
  function Share(residents: seq<Session>, i: nat): nat
    requires i < |residents|
  {
    Min(CapacityFor(residents, residents[i].epoch), IDENTITIES_PER_LOAD)
  }

  /** An identity is due, or one is left out although there is room for it. */
  ghost predicate Wants(residents: seq<Session>, i: nat, now: Instant)
    requires i < |residents|
  {
    var s := residents[i];
    s.recovery.Ready(now).Some? || (LeavesOut(s) && |s.recovery.entries| < Share(residents, i))
  }

  /** No identity that left its catalog is still tracked, except by a read in flight. */
  ghost predicate NoLeftovers(residents: seq<Session>) {
    forall i | 0 <= i < |residents| :: residents[i].recovery.Retired(residents[i].catalog) == {}
  }

  // ---- what discovery does to a session without leftovers ---------------

  /** Admission only adds pending identities, and what was due stays due. */
  ghost predicate Grows(before: State, after: State, now: Instant) {
    && (forall k | k in after.entries :: k in before.entries || after.entries[k].status.Pending?)
    && (forall k | k in before.entries :: k in after.entries)
    && (forall k | k in before.entries && before.entries[k].status.IsReady(now) :: after.entries[k].status.IsReady(now))
    && (forall k | k in before.entries && !before.entries[k].status.IsSettled() :: !after.entries[k].status.IsSettled())
    && (forall k | k in after.entries && after.entries[k].status.IsSettled() ::
          k in before.entries && before.entries[k].status.IsSettled())
    && after.settledThrough == before.settledThrough
  }

  lemma AdmitOneGrows(st: State, turn: CompletedTurn, capacity: nat, now: Instant)
    ensures Grows(st, st.AdmitOne(turn, capacity), now)
  {
  }

  lemma {:induction false} AdmitGrows(st: State, turns: seq<CompletedTurn>, capacity: nat, now: Instant)
    ensures Grows(st, st.Admit(turns, capacity), now)
  {
    if turns != [] {
      AdmitGrows(st, turns[..|turns| - 1], capacity, now);
      AdmitOneGrows(st.Admit(turns[..|turns| - 1], capacity), turns[|turns| - 1], capacity, now);
    }
  }

  ghost predicate HasPending(st: State) {
    exists k :: k in st.entries && st.entries[k].status.Pending?
  }

  /** A pending identity stays pending while others are admitted. */
  lemma AdmitOneStaysPending(st: State, turn: CompletedTurn, capacity: nat)
    requires HasPending(st)
    ensures HasPending(st.AdmitOne(turn, capacity))
  {
    var k :| k in st.entries && st.entries[k].status.Pending?;
    assert st.AdmitOne(turn, capacity).entries[k].status.Pending?;
  }

  lemma AdmitOneFills(st: State, turn: CompletedTurn, capacity: nat)
    requires Untracked(st, turn.seqNo) && |st.entries| < capacity
    ensures HasPending(st.AdmitOne(turn, capacity))
  {
    assert st.AdmitOne(turn, capacity).entries[turn.seqNo].status.Pending?;
  }

  lemma NoneAdmitted(st: State, after: State, now: Instant)
    requires Grows(st, after, now) && !HasPending(after)
    ensures after.entries.Keys == st.entries.Keys && |after.entries| == |st.entries|
  {
    assert |after.entries| == |after.entries.Keys| && |st.entries| == |st.entries.Keys|;
  }

  /** With room, an identity that is left out is admitted, unless another one took the room. */
  lemma {:induction false} AdmitFills(st: State, turns: seq<CompletedTurn>, capacity: nat, j: nat)
    requires j < |turns| && Untracked(st, turns[j].seqNo) && |st.entries| < capacity
    ensures HasPending(st.Admit(turns, capacity))
    decreases |turns|
  {
    var before := st.Admit(turns[..|turns| - 1], capacity);
    var turn := turns[|turns| - 1];
    AdmitGrows(st, turns[..|turns| - 1], capacity, 0);
    if j < |turns| - 1 {
      AdmitFills(st, turns[..|turns| - 1], capacity, j);
    }
    hide State.AdmitOne;
    hide HasPending;
    if HasPending(before) {
      AdmitOneStaysPending(before, turn, capacity);
    } else {
      NoneAdmitted(st, before, 0);
      AdmitOneFills(before, turn, capacity);
    }
  }

  /** Without leftovers, discovery is admission and settling. */
  lemma DiscoverIsAdmission(st: State, d: Directory, limit: nat)
    requires st.Retired(d) == {}
    ensures var pruned := st.RaiseGap(d).Prune(d).(behind := false);
            && pruned.entries == st.entries && pruned.settledThrough == st.settledThrough
            && st.Discover(d, limit) == pruned.Admit(d.entries, Min(limit, IDENTITIES_PER_LOAD)).SettlePrefix()
  {
    assert st.entries - {} == st.entries;
  }

  /** What is due stays due. */
  lemma DiscoverStaysDue(st: State, d: Directory, limit: nat, now: Instant)
    requires st.Retired(d) == {} && st.Ready(now).Some?
    ensures st.Discover(d, limit).Ready(now).Some?
  {
    hide State.Discover;
    hide State.Admit;
    hide State.SettlePrefix;
    hide State.Prune;
    hide State.RaiseGap;
    hide State.Retired;
    var k :| k in st.ReadyKeys(now);
    var pruned := st.RaiseGap(d).Prune(d).(behind := false);
    var admitted := pruned.Admit(d.entries, Min(limit, IDENTITIES_PER_LOAD));
    DiscoverIsAdmission(st, d, limit);
    AdmitGrows(pruned, d.entries, Min(limit, IDENTITIES_PER_LOAD), now);
    SettlePrefixFrame(admitted);
    assert k in admitted.entries && admitted.entries[k].status.IsReady(now);
    assert k in st.Discover(d, limit).ReadyKeys(now);
  }

  /** What is left out although there is room becomes due. */
  lemma DiscoverFills(st: State, d: Directory, limit: nat, j: nat, now: Instant)
    requires st.Retired(d) == {} && j < |d.entries| && Untracked(st, d.entries[j].seqNo)
    requires |st.entries| < Min(limit, IDENTITIES_PER_LOAD)
    ensures st.Discover(d, limit).Ready(now).Some?
  {
    var pruned := st.RaiseGap(d).Prune(d).(behind := false);
    var admitted := pruned.Admit(d.entries, Min(limit, IDENTITIES_PER_LOAD));
    DiscoverIsAdmission(st, d, limit);
    AdmitFills(pruned, d.entries, Min(limit, IDENTITIES_PER_LOAD), j);
    SettlePrefixFrame(admitted);
    hide State.Discover;
    hide State.Admit;
    hide State.SettlePrefix;
    var k :| k in admitted.entries && admitted.entries[k].status.Pending?;
    assert k in st.Discover(d, limit).ReadyKeys(now);
  }

  lemma NothingAdmitted(before: State, admitted: State, now: Instant)
    requires Grows(before, admitted, now) && admitted.SettlePrefix().Ready(now).None?
    ensures admitted.entries.Keys == before.entries.Keys
  {
    SettlePrefixFrame(admitted);
    hide State.SettlePrefix;
    var due := admitted.SettlePrefix().ReadyKeys(now);
    assert due == {};
    assert forall k | k in admitted.entries && admitted.entries[k].status.Pending? :: k in due;
  }

  lemma NothingSettles(before: State, admitted: State, now: Instant)
    requires Grows(before, admitted, now) && Trimmed(before)
    ensures admitted.SettlePrefix() == admitted
  {
  }

  /** Where nothing is due afterwards, discovery tracks what was tracked. */
  lemma DiscoverInVain(st: State, d: Directory, limit: nat, now: Instant)
    requires st.Retired(d) == {} && Trimmed(st) && st.Discover(d, limit).Ready(now).None?
    ensures var after := st.Discover(d, limit);
            after.entries.Keys == st.entries.Keys && after.settledThrough == st.settledThrough
  {
    var pruned := st.RaiseGap(d).Prune(d).(behind := false);
    var admitted := pruned.Admit(d.entries, Min(limit, IDENTITIES_PER_LOAD));
    DiscoverIsAdmission(st, d, limit);
    AdmitGrows(pruned, d.entries, Min(limit, IDENTITIES_PER_LOAD), now);
    hide State.Discover;
    hide State.Admit;
    NothingAdmitted(pruned, admitted, now);
    NothingSettles(pruned, admitted, now);
  }

  lemma DiscoverLeavesNone(st: State, d: Directory, limit: nat)
    requires d.WellFormed() && st.Retired(d) == {}
    ensures st.Discover(d, limit).Retired(d) == {}
  {
    var pruned := st.RaiseGap(d).Prune(d).(behind := false);
    var capacity := Min(limit, IDENTITIES_PER_LOAD);
    DiscoverIsAdmission(st, d, limit);
    AdmitFrame(pruned, d, |d.entries|, capacity);
    assert d.entries[..|d.entries|] == d.entries;
    SettlePrefixFrame(pruned.Admit(d.entries, capacity));
    hide State.Discover;
    hide State.Admit;
    hide State.SettlePrefix;
    forall k | k in st.Discover(d, limit).entries && k < d.retainedFrom
      ensures st.Discover(d, limit).entries[k].status.Fetching?
    {
      assert k !in st.Retired(d);
    }
  }

  // ---- one scan ---------------------------------------------------------

  /** A state the scheduler may scan: lawful, nothing in flight, and every session clean. */
  ghost predicate Scannable(residents: seq<Session>) {
    Lawful(residents) && InFlight(residents) < CONCURRENT && AllTidy(residents) && NoLeftovers(residents)
  }

  lemma ShareIs(residents: seq<Session>, i: nat)
    requires Lawful(residents) && i < |residents|
    ensures Share(residents, i)
         == Min(IDENTITIES_TOTAL - (Tracked(residents) - |residents[i].recovery.entries|), IDENTITIES_PER_LOAD)
    ensures |residents[i].recovery.entries| <= Share(residents, i)
  {
    hide Sound;
    hide TasksMatch;
    hide Distinct;
    hide Tracked;
    hide TrackedByOthers;
    hide InFlight;
    OthersAreTheRest(residents, i);
    SumsCover(residents, i);
    assert Consistent(residents[i]);
  }

  lemma MakeRoomShares(residents: seq<Session>, i: nat, now: Instant)
    requires i < |residents|
    ensures var (roomy, limit) := MakeRoom(residents, i, now);
            && roomy[i] == residents[i] && |roomy| == |residents|
            && Share(residents, i) <= Min(limit, IDENTITIES_PER_LOAD)
  {
  }

  /** A session that wants a read gets one when it is scanned. */
  lemma ScanServes(residents: seq<Session>, i: nat, now: Instant)
    requires Scannable(residents) && i < |residents| && Wants(residents, i, now)
    ensures RecoverResident(residents, residents[i].epoch, now).1
  {
    var s := residents[i];
    assert Position(residents, s.epoch) == i;
    MakeRoomShares(residents, i, now);
    var (roomy, limit) := MakeRoom(residents, i, now);
    var known := s.(recovery := s.recovery.Discover(s.catalog, limit));
    assert known.recovery.Ready(now).Some? by {
      if s.recovery.Ready(now).Some? {
        DiscoverStaysDue(s.recovery, s.catalog, limit, now);
      } else {
        var j :| 0 <= j < |s.catalog.entries| && Untracked(s.recovery, s.catalog.entries[j].seqNo);
        DiscoverFills(s.recovery, s.catalog, limit, j, now);
      }
    }
    hide State.Discover;
    hide State.Record;
    hide State.Ready;
  }

  lemma DeferLeavesNone(s: Session)
    requires s.recovery.Retired(s.catalog) == {}
    ensures s.recovery.DeferUnstarted().Retired(s.catalog) == {}
  {
    assert s.recovery.DeferUnstarted().Retired(s.catalog) <= s.recovery.Retired(s.catalog);
  }

  /** A session that gave up an identity has room for it and leaves it out. */
  lemma DeferredIsLeftOut(s: Session)
    requires Consistent(s) && s.recovery.Retired(s.catalog) == {} && s.recovery.Unstarted() != {}
    ensures LeavesOut(s.(recovery := s.recovery.DeferUnstarted()))
    ensures |s.recovery.DeferUnstarted().entries| == |s.recovery.entries| - 1
  {
    var k := Greatest(s.recovery.Unstarted());
    assert k !in s.recovery.Retired(s.catalog);
    assert Known(s.recovery.entries[k], s.recovery.settledThrough, s.catalog, k);
    assert s.catalog.entries[k - s.catalog.retainedFrom].seqNo == k;
    assert (s.recovery.entries - {k}).Keys == s.recovery.entries.Keys - {k};
  }

  /** A scan that starts nothing: what its session tracks is what it tracked before. */
  lemma VainScan(residents: seq<Session>, i: nat, now: Instant)
    requires Scannable(residents) && i < |residents| && !RecoverResident(residents, residents[i].epoch, now).1
    ensures var roomy := MakeRoom(residents, i, now).0;
            var after := RecoverResident(residents, residents[i].epoch, now).0;
            && |roomy| == |residents| && after == roomy[i := after[i]]
            && after[i] == residents[i].(recovery := after[i].recovery) && Idle(after[i], now)
            && after[i].recovery.entries.Keys == residents[i].recovery.entries.Keys
            && after[i].recovery.settledThrough == residents[i].recovery.settledThrough
            && after[i].recovery.Retired(after[i].catalog) == {}
  {
    var s := residents[i];
    assert Position(residents, s.epoch) == i;
    assert Consistent(s) && Tidy(s.recovery);
    MakeRoomShares(residents, i, now);
    var (roomy, limit) := MakeRoom(residents, i, now);
    var known := s.(recovery := s.recovery.Discover(s.catalog, limit));
    hide Lawful;
    hide Consistent;
    hide State.Discover;
    StartReadIdles(known, now);
    DiscoverInVain(s.recovery, s.catalog, limit, now);
    DiscoverLeavesNone(s.recovery, s.catalog, limit);
  }

  lemma MakeRoomLeavesNone(residents: seq<Session>, i: nat, now: Instant)
    requires i < |residents| && NoLeftovers(residents)
    ensures NoLeftovers(MakeRoom(residents, i, now).0)
  {
    hide State.DeferUnstarted;
    hide CapacityFor;
    hide Starved;
    hide State.Retired;
    var j := Donor(residents, residents[i].epoch);
    if j < |residents| {
      DeferLeavesNone(residents[j]);
    }
  }

  lemma VainScanScannable(residents: seq<Session>, i: nat, now: Instant)
    requires Scannable(residents) && i < |residents| && !RecoverResident(residents, residents[i].epoch, now).1
    ensures Scannable(RecoverResident(residents, residents[i].epoch, now).0)
    ensures SameEpochs(RecoverResident(residents, residents[i].epoch, now).0, residents)
  {
    hide RecoverResident;
    hide Lawful;
    hide MakeRoom;
    hide Tidy;
    hide State.Retired;
    VainScan(residents, i, now);
    MakeRoomLeavesNone(residents, i, now);
    RecoverResidentLawful(residents, residents[i].epoch, now);
    RecoverResidentTidy(residents, residents[i].epoch, now);
  }

  /** A vain scan takes from others at most the one identity it deferred. */
  lemma VainScanTracked(residents: seq<Session>, i: nat, now: Instant)
    requires Scannable(residents) && i < |residents| && !RecoverResident(residents, residents[i].epoch, now).1
    ensures var after := RecoverResident(residents, residents[i].epoch, now).0;
            var roomy := MakeRoom(residents, i, now).0;
            && |after| == |residents| == |roomy|
            && Tracked(after) == Tracked(roomy)
            && |after[i].recovery.entries| == |residents[i].recovery.entries|
  {
    var after := RecoverResident(residents, residents[i].epoch, now).0;
    var roomy := MakeRoom(residents, i, now).0;
    VainScan(residents, i, now);
    MakeRoomShares(residents, i, now);
    hide RecoverResident;
    hide MakeRoom;
    assert |after[i].recovery.entries.Keys| == |residents[i].recovery.entries.Keys|;
    SumsUpdate(roomy, i, after[i]);
  }

  /** Whoever wants a read still does after another session was scanned in vain. */
  lemma VainScanKeeps(residents: seq<Session>, i: nat, u: nat, now: Instant)
    requires Scannable(residents) && i < |residents| && !RecoverResident(residents, residents[i].epoch, now).1
    requires u < |residents| && u != i && Wants(residents, u, now)
    ensures |RecoverResident(residents, residents[i].epoch, now).0| == |residents|
    ensures Wants(RecoverResident(residents, residents[i].epoch, now).0, u, now)
  {
    var after := RecoverResident(residents, residents[i].epoch, now).0;
    var roomy := MakeRoom(residents, i, now).0;
    VainScan(residents, i, now);
    VainScanTracked(residents, i, now);
    VainScanScannable(residents, i, now);
    RoomyFor(residents, i, u, now);
    hide RecoverResident;
    hide MakeRoom;
    hide Scannable;
    hide Wants;
    hide LeavesOut;
    hide Tracked;
    assert after[u] == roomy[u];
    WantsCarries(residents, after, u, now);
  }

  /** With no more tracked altogether, who wants a read still does as it was, or with one identity less. */
  lemma WantsCarries(residents: seq<Session>, after: seq<Session>, u: nat, now: Instant)
    requires Scannable(residents) && Scannable(after) && u < |residents| == |after|
    requires Wants(residents, u, now) && Tracked(after) <= Tracked(residents)
    requires after[u] == residents[u]
             || (&& LeavesOut(after[u]) && Tracked(after) < Tracked(residents)
                 && |after[u].recovery.entries| < |residents[u].recovery.entries|)
    ensures Wants(after, u, now)
  {
    hide AllTidy;
    hide NoLeftovers;
    hide Share;
    hide LeavesOut;
    hide InFlight;
    hide Tracked;
    ShareIs(residents, u);
    ShareIs(after, u);
  }

  /** Making room for another session leaves one that wants a read as it is, or takes one identity that
      it can have back. */
  lemma RoomyFor(residents: seq<Session>, i: nat, u: nat, now: Instant)
    requires Scannable(residents) && i < |residents| && u < |residents| && u != i
    ensures var roomy := MakeRoom(residents, i, now).0;
            && |roomy| == |residents| && Tracked(roomy) <= Tracked(residents)
            && (roomy[u] == residents[u]
                || (&& LeavesOut(roomy[u]) && Tracked(roomy) < Tracked(residents)
                    && |roomy[u].recovery.entries| < |residents[u].recovery.entries|))
  {
    hide State.DeferUnstarted;
    hide LeavesOut;
    hide Consistent;
    hide AllTidy;
    hide CapacityFor;
    hide Tracked;
    hide InFlight;
    hide Starved;
    var j := Donor(residents, residents[i].epoch);
    if j < |residents| {
      DeferredIsLeftOut(residents[j]);
      SumsUpdate(residents, j, residents[j].(recovery := residents[j].recovery.DeferUnstarted()));
    }
  }

  lemma UnwantedKeepsItsOwn(residents: seq<Session>, u: nat, now: Instant)
    requires u < |residents| && !Wants(residents, u, now)
    ensures residents[u].recovery.Unstarted() == {}
  {
    assert residents[u].recovery.Unstarted() <= residents[u].recovery.ReadyKeys(now);
  }

  ghost predicate NobodyWants(residents: seq<Session>, now: Instant) {
    forall u | 0 <= u < |residents| :: !Wants(residents, u, now)
  }

  /** Where nobody wants a read, a vain scan changes nothing that matters to that. */
  lemma VainScanQuiet(residents: seq<Session>, i: nat, now: Instant)
    requires Scannable(residents) && i < |residents| && !RecoverResident(residents, residents[i].epoch, now).1
    requires NobodyWants(residents, now)
    ensures NobodyWants(RecoverResident(residents, residents[i].epoch, now).0, now)
  {
    var after := RecoverResident(residents, residents[i].epoch, now).0;
    var roomy := MakeRoom(residents, i, now).0;
    assert roomy == residents by {
      if Donor(residents, residents[i].epoch) < |residents| {
        UnwantedKeepsItsOwn(residents, Donor(residents, residents[i].epoch), now);
      }
    }
    VainScan(residents, i, now);
    VainScanTracked(residents, i, now);
    VainScanScannable(residents, i, now);
    hide RecoverResident;
    hide MakeRoom;
    hide Scannable;
    forall u | 0 <= u < |after|
      ensures !Wants(after, u, now)
    {
      ShareSame(residents, after, u);
      assert !Wants(residents, u, now);
    }
  }

  lemma ShareSame(residents: seq<Session>, after: seq<Session>, u: nat)
    requires Scannable(residents) && Scannable(after) && u < |residents| == |after|
    requires Tracked(after) == Tracked(residents)
    requires |after[u].recovery.entries| == |residents[u].recovery.entries|
    ensures Share(after, u) == Share(residents, u)
  {
    hide AllTidy;
    hide NoLeftovers;
    hide Share;
    hide InFlight;
    hide Tracked;
    ShareIs(residents, u);
    ShareIs(after, u);
  }

  // ---- one scheduling call ----------------------------------------------

  /** A pass that gets to a session that wants a read starts that one or one before. */
  lemma {:induction false} PassServesWanting(p: Progress, order: seq<nat>, u: nat, now: Instant)
    requires Scannable(p.residents) && p.slots != 0
    requires u < |p.residents| && p.residents[u].epoch in order && Wants(p.residents, u, now)
    ensures Pass(p, order, now).slots < p.slots
    decreases |order|
  {
    hide Scannable;
    hide Wants;
    hide RecoverResident;
    var (residents, started) := RecoverResident(p.residents, order[0], now);
    var i := Position(p.residents, order[0]);
    FoundAt(p.residents, u);
    if started {
      PassSpends(Progress(residents, p.slots - 1, Some(order[0])), order[1..], now);
    } else if i == u {
      ScanServes(p.residents, u, now);
    } else {
      assert order == [order[0]] + order[1..];
      if i < |p.residents| {
        VainScanKeeps(p.residents, i, u, now);
        VainScanScannable(p.residents, i, now);
      } else {
        NotScanned(p.residents, order[0], now);
      }
      PassServesWanting(p.(residents := residents), order[1..], u, now);
    }
  }

  lemma FoundAt(residents: seq<Session>, u: nat)
    requires Scannable(residents) && u < |residents|
    ensures Position(residents, residents[u].epoch) == u
  {
  }

  lemma NotScanned(residents: seq<Session>, epoch: nat, now: Instant)
    requires Position(residents, epoch) == |residents|
    ensures RecoverResident(residents, epoch, now) == (residents, false)
  {
  }

  lemma {:induction false} PassQuiet(p: Progress, order: seq<nat>, now: Instant)
    requires Scannable(p.residents) && NobodyWants(p.residents, now) && p.slots != 0
    requires Pass(p, order, now).slots == p.slots
    ensures NobodyWants(Pass(p, order, now).residents, now)
    decreases |order|
  {
    hide Scannable;
    hide NobodyWants;
    hide RecoverResident;
    if order != [] {
      var (residents, started) := RecoverResident(p.residents, order[0], now);
      var i := Position(p.residents, order[0]);
      if started {
        PassSpends(Progress(residents, p.slots - 1, Some(order[0])), order[1..], now);
      } else {
        if i < |p.residents| {
          VainScanQuiet(p.residents, i, now);
          VainScanScannable(p.residents, i, now);
        } else {
          NotScanned(p.residents, order[0], now);
        }
        PassQuiet(p.(residents := residents), order[1..], now);
      }
    }
  }

  /** A scheduling call over sessions without leftovers leaves a slot free only when no session wants a
      read: nothing is due, and where an identity is left out the limits are used up. */
  lemma FreeSlotMeansFull(w: World)
    requires Lawful(w.residents) && AllTidy(w.residents) && NoLeftovers(w.residents)
    requires FreeSlots(RecoverCompletions(w).residents) > 0
    ensures NobodyWants(RecoverCompletions(w).residents, w.now)
  {
    hide Rotation;
    hide Lawful;
    hide Wants;
    hide InFlight;
    hide Pass;
    var order := Rotation(w.residents, w.recoveryAfter);
    var p := Progress(w.residents, 1, w.recoveryAfter);
    ScheduledLawful(w);
    ScheduledIsOnePass(w);
    forall u | 0 <= u < |w.residents|
      ensures !Wants(w.residents, u, w.now)
    {
      assert w.residents[u] in w.residents;
      RotationHas(w, w.residents[u].epoch);
      if Wants(w.residents, u, w.now) {
        PassServesWanting(p, order, u, w.now);
      }
    }
    PassQuiet(p, order, w.now);
  }

  // ---- whole runs -------------------------------------------------------

  /** With no read in flight nothing is due, and in a clean run nobody wants a read. */
  ghost predicate Calm(w: World, clean: bool) {
    InFlight(w.residents) == 0 ==>
      && (forall i | 0 <= i < |w.residents| :: Idle(w.residents[i], w.now))
      && (clean ==> NobodyWants(w.residents, w.now))
  }

  lemma SchedulingCalms(w: World, clean: bool)
    requires Lawful(w.residents) && AllTidy(w.residents) && (clean ==> NoLeftovers(w.residents))
    ensures Calm(RecoverCompletions(w), clean)
  {
    hide Lawful;
    hide AllTidy;
    hide NoLeftovers;
    hide NobodyWants;
    hide Scheduled;
    hide Idle;
    var after := RecoverCompletions(w).residents;
    if InFlight(after) == 0 {
      forall i | 0 <= i < |after|
        ensures Idle(after[i], w.now)
      {
        AllScanned(w, i);
      }
      if clean {
        FreeSlotMeansFull(w);
      }
    }
  }

  /** The same session as far as the scheduler looks at it. */
  ghost predicate Alike(a: Session, b: Session) {
    && a.catalog == b.catalog && a.tasks == b.tasks
    && a.recovery == b.recovery.(historyCoverage := a.recovery.historyCoverage)
  }

  lemma AlikeCalm(residents: seq<Session>, after: seq<Session>, u: nat, v: nat, now: Instant)
    requires Lawful(residents) && Lawful(after) && Tracked(after) == Tracked(residents)
    requires u < |after| && v < |residents| && Alike(after[u], residents[v])
    ensures Wants(after, u, now) == Wants(residents, v, now)
    ensures Idle(after[u], now) == Idle(residents[v], now)
  {
    hide Share;
    hide Lawful;
    hide Tracked;
    ShareIs(residents, v);
    ShareIs(after, u);
    assert after[u].recovery.ReadyKeys(now) == residents[v].recovery.ReadyKeys(now);
  }

  /** What a step that does not schedule leaves of the sessions. */
  ghost predicate SameSessions(residents: seq<Session>, after: seq<Session>) {
    forall u | 0 <= u < |after| ::
      || after[u] == Session(after[u].epoch, Unpublished, Fresh, [])
      || exists v :: 0 <= v < |residents| && Alike(after[u], residents[v])
  }

  lemma UnscheduledKeeps(w: World, step: Step)
    requires Lawful(w.residents) && Enabled(w, step) && !Schedules(w, step)
    ensures var after := Handle(w, step).residents;
            && SameSessions(w.residents, after) && Handle(w, step).now == w.now
            && Tracked(after) == Tracked(w.residents) && InFlight(after) == InFlight(w.residents)
  {
    hide HandleAct;
    hide SchedulesAfter;
    hide Allowed;
    hide Lawful;
    match step
    case Opened(epoch) =>
      OpenKeeps(w.residents, epoch);
    case On(epoch, act) =>
      var i := Position(w.residents, epoch);
      if act.Selected? {
        SelectKeeps(w.residents, i);
        SelectedIs(w.residents, i, w.now);
      } else {
        UnscheduledActKeeps(w.residents, i, act, w.now);
      }
    case _ =>
  }

  lemma SelectedIs(residents: seq<Session>, i: nat, now: Instant)
    requires i < |residents|
    ensures HandleAct(residents, i, Selected, now) == [residents[i]] + residents[..i] + residents[i + 1..]
  {
  }

  lemma OpenKeeps(residents: seq<Session>, epoch: nat)
    ensures var after := residents + [Session(epoch, Unpublished, Fresh, [])];
            SameSessions(residents, after) && Tracked(after) == Tracked(residents)
            && InFlight(after) == InFlight(residents)
  {
    SumsConcat(residents, [Session(epoch, Unpublished, Fresh, [])]);
    assert forall u | 0 <= u < |residents| :: Alike(residents[u], residents[u]);
  }

  lemma SelectKeeps(residents: seq<Session>, i: nat)
    requires i < |residents|
    ensures var after := [residents[i]] + residents[..i] + residents[i + 1..];
            SameSessions(residents, after) && Tracked(after) == Tracked(residents)
            && InFlight(after) == InFlight(residents)
  {
    var after := [residents[i]] + residents[..i] + residents[i + 1..];
    forall u | 0 <= u < |after|
      ensures exists v :: 0 <= v < |residents| && Alike(after[u], residents[v])
    {
      var v := if u == 0 then i else if u <= i then u - 1 else u;
      assert after[u] == residents[v] && Alike(after[u], residents[v]);
    }
    hide Tracked;
    hide InFlight;
    SumsConcat([residents[i]] + residents[..i], residents[i + 1..]);
    SumsConcat([residents[i]], residents[..i]);
    SumsConcat(residents[..i] + [residents[i]], residents[i + 1..]);
    SumsConcat(residents[..i], [residents[i]]);
    assert residents == residents[..i] + [residents[i]] + residents[i + 1..];
  }

  lemma UnscheduledActKeeps(residents: seq<Session>, i: nat, act: Act, now: Instant)
    requires i < |residents| && !SchedulesAfter(residents[i], act) && !act.Selected?
    ensures var after := HandleAct(residents, i, act, now);
            SameSessions(residents, after) && Tracked(after) == Tracked(residents)
            && InFlight(after) == InFlight(residents)
  {
    var after := HandleAct(residents, i, act, now);
    UnscheduledActIs(residents, i, act, now);
    hide HandleAct;
    hide SchedulesAfter;
    SumsUpdate(residents, i, after[i]);
    assert forall u | 0 <= u < |residents| :: Alike(residents[u], residents[u]);
  }

  lemma UnscheduledActIs(residents: seq<Session>, i: nat, act: Act, now: Instant)
    requires i < |residents| && !SchedulesAfter(residents[i], act) && !act.Selected?
    ensures var after := HandleAct(residents, i, act, now);
            && |after| == |residents| && after == residents[i := after[i]]
            && Alike(after[i], residents[i]) && after[i].recovery.entries == residents[i].recovery.entries
  {
    hide State.SettleHistoryGap;
    hide State.Discover;
  }

  lemma UnscheduledCalm(w: World, step: Step, clean: bool)
    requires Lawful(w.residents) && Enabled(w, step) && !Schedules(w, step) && Calm(w, clean)
    ensures Calm(Handle(w, step), clean)
  {
    hide Handle;
    hide Lawful;
    hide Wants;
    hide Idle;
    hide Schedules;
    hide Enabled;
    hide Tracked;
    hide Alike;
    var after := Handle(w, step).residents;
    UnscheduledKeeps(w, step);
    HandledLawful(w, step);
    if InFlight(after) == 0 {
      forall u | 0 <= u < |after|
        ensures Idle(after[u], w.now) && (clean ==> !Wants(after, u, w.now))
      {
        if after[u] == Session(after[u].epoch, Unpublished, Fresh, []) {
          FreshIsCalm(after, u, w.now);
        } else {
          var v :| 0 <= v < |w.residents| && Alike(after[u], w.residents[v]);
          AlikeCalm(w.residents, after, u, v, w.now);
        }
      }
    }
  }

  lemma FreshIsCalm(residents: seq<Session>, u: nat, now: Instant)
    requires u < |residents| && residents[u] == Session(residents[u].epoch, Unpublished, Fresh, [])
    ensures Idle(residents[u], now) && !Wants(residents, u, now)
  {
    assert residents[u].recovery.ReadyKeys(now) == {};
  }

  /** No scheduling call of the run meets an identity that left its catalog. */
  ghost predicate Clean(w: World, steps: seq<Step>)
    decreases |steps|
  {
    steps != [] ==>
      && (Schedules(w, steps[0]) ==> NoLeftovers(Handle(w, steps[0]).residents))
      && Clean(Next(w, steps[0]), steps[1..])
  }

  lemma {:induction false} RunCalm(w: World, steps: seq<Step>, clean: bool)
    requires Lawful(w.residents) && AllTidy(w.residents) && RunsFrom(w, steps) && Calm(w, clean)
    requires clean ==> Clean(w, steps)
    ensures var after := After(w, steps);
            Lawful(after.residents) && AllTidy(after.residents) && Calm(after, clean)
    decreases |steps|
  {
    if steps != [] {
      hide Calm;
      hide Lawful;
      hide AllTidy;
      var handled := Handle(w, steps[0]);
      HandledLawful(w, steps[0]);
      HandleTidy(w, steps[0]);
      NextLawful(w, steps[0]);
      NextTidy(w, steps[0]);
      if Schedules(w, steps[0]) {
        SchedulingCalms(handled, clean);
      } else {
        UnscheduledCalm(w, steps[0], clean);
      }
      hide Handle;
      hide Schedules;
      RunCalm(Next(w, steps[0]), steps[1..], clean);
    }
  }

  // ---- coming to rest ---------------------------------------------------

  /** No read of the session's own waits for its time to be retried. */
  ghost predicate NoRetryWaits(s: Session) {
    && (forall k | k in s.recovery.entries :: !s.recovery.entries[k].status.Retryable?)
    && (s.recovery.historyStatus.Some? ==> !s.recovery.historyStatus.value.Retryable?)
  }

  /** The identity limit of one load or of all together is used up. */
  ghost predicate LimitsUsedUp(residents: seq<Session>, s: Session) {
    |s.recovery.entries| == IDENTITIES_PER_LOAD || Tracked(residents) == IDENTITIES_TOTAL
  }

  /** Where recovery left a published completion when it came to rest. */
  ghost predicate Rests(s: Session, k: nat) {
    || k <= s.recovery.settledThrough
    || (k in s.recovery.entries
        && (s.recovery.entries[k].status.IsSettled() || s.recovery.entries[k].status.Exhausted?))
    || (k <= s.recovery.gapThrough && s.recovery.historyStatus == Some(Exhausted))
  }

  lemma IdleRests(s: Session, k: nat, now: Instant)
    requires Consistent(s) && Tidy(s.recovery) && Idle(s, now) && s.tasks == [] && NoRetryWaits(s)
    requires 1 <= k <= s.recovery.observedThrough
    ensures Rests(s, k)
            || (s.recovery.behind && exists j :: 0 <= j < |s.catalog.entries| && s.catalog.entries[j].seqNo == k)
    ensures !Rests(s, k) ==> Untracked(s.recovery, k)
  {
    NothingIsLost(s.recovery, s.catalog, k);
    assert !Reading(s.recovery, k);
    assert k in s.recovery.ReadyKeys(now) <==>
             k in s.recovery.entries && s.recovery.entries[k].status.IsReady(now);
  }

  lemma FullShare(residents: seq<Session>, i: nat, now: Instant)
    requires Lawful(residents) && i < |residents| && !Wants(residents, i, now) && LeavesOut(residents[i])
    ensures LimitsUsedUp(residents, residents[i])
  {
    ShareIs(residents, i);
    assert Consistent(residents[i]);
  }

  /** In every reachable state with no read in flight and no retry of the session waiting, a published
      completion is settled, recorded as settled, failed for good, or below a gap whose history failed
      for good; or else it is in the directory of a load that knows it is behind, and in a clean run
      that is because the limits are used up. */
  lemma RecoveryComesToRest(steps: seq<Step>, i: nat, k: nat)
    requires RunsFrom(Start, steps) && i < |After(Start, steps).residents|
    requires InFlight(After(Start, steps).residents) == 0 && NoRetryWaits(After(Start, steps).residents[i])
    requires 1 <= k <= After(Start, steps).residents[i].recovery.observedThrough
    ensures var w := After(Start, steps); var s := w.residents[i];
            || Rests(s, k)
            || (&& s.recovery.behind && (exists j :: 0 <= j < |s.catalog.entries| && s.catalog.entries[j].seqNo == k)
                && (Clean(Start, steps) ==> LimitsUsedUp(w.residents, s)))
  {
    var clean := Clean(Start, steps);
    RunCalm(Start, steps, clean);
    var w := After(Start, steps);
    var s := w.residents[i];
    AtRest(w, i, k, clean);
  }

  lemma AtRest(w: World, i: nat, k: nat, clean: bool)
    requires Lawful(w.residents) && AllTidy(w.residents) && Calm(w, clean) && InFlight(w.residents) == 0
    requires i < |w.residents| && NoRetryWaits(w.residents[i]) && 1 <= k <= w.residents[i].recovery.observedThrough
    ensures var s := w.residents[i];
            || Rests(s, k)
            || (&& s.recovery.behind && (exists j :: 0 <= j < |s.catalog.entries| && s.catalog.entries[j].seqNo == k)
                && (clean ==> LimitsUsedUp(w.residents, s)))
  {
    var s := w.residents[i];
    SumsCover(w.residents, i);
    assert Consistent(s) && Tidy(s.recovery);
    IdleRests(s, k, w.now);
    hide Consistent;
    hide Tidy;
    hide Idle;
    if !Rests(s, k) && clean {
      hide Rests;
      assert !Wants(w.residents, i, w.now);
      hide Wants;
      FullShare(w.residents, i, w.now);
    }
  }
}
