/**
 Which outcome of a recovery read settles a completion, and why a watermark stands where it
 stands in any run of the scheduler.

 A completion is settled by a placed complete body, a partial one or an unavailable one, each
 with its own status, and by nothing else. So every sequence a watermark passed had such an
 outcome in the life of its session, or lay below a catalog gap at a step that completed the
 verified read of a whole history.
 */
module RecoveryOutcomes {
  import opened Wrappers
  import opened Completion
  import opened CompletionLaws
  import opened RecoveryEvidence
  import opened Scheduler
  import opened SchedulerLaws

  // ---- one outcome ------------------------------------------------------

  /** The status an outcome settles its completion with, if it settles it at all. */
  function Settling(outcome: TurnOutcome): Option<Status> {
    if outcome.BodyComplete? && outcome.placed then Some(Complete)
    else if outcome.BodyPartial? then Some(Partial)
    else if outcome.BodyUnavailable? then Some(Unavailable)
    else None
  }

  /** `after` has the claims of `before` and, when `status` says so, that of `k`; the watermark has
      passed every claim it can reach. */
  ghost predicate ClaimsAdded(before: State, after: State, k: nat, status: Option<Status>) {
    && (forall j: nat :: Claimed(after, j) <==> Claimed(before, j) || (j == k && status.Some?))
    && before.settledThrough <= after.settledThrough
    && (status.Some? ==>
          !(after.settledThrough + 1 in after.entries && after.entries[after.settledThrough + 1].status.IsSettled()))
  }

  /** Every identity but `k` is tracked as it was, or settled and passed. */
  ghost predicate OthersStay(before: State, after: State, k: nat) {
    && (forall j | j in after.entries && j != k :: j in before.entries && after.entries[j] == before.entries[j])
    && (forall j | j in before.entries && j != k && j !in after.entries ::
          before.entries[j].status.IsSettled() && j <= after.settledThrough)
  }

  /** Nothing but the identities, the watermark and the history status differs. */
  ghost predicate SameBesides(before: State, after: State) {
    after == before.(entries := after.entries, settledThrough := after.settledThrough,
                     historyStatus := after.historyStatus)
  }

  /** The entry after a read that settled nothing: given up once it left the catalog or its fourth
      attempt failed, and otherwise due again after a quarter of a second, one or four. */
  ghost predicate IsRetried(entry: Recovery, after: Recovery, retired: bool, now: Instant) {
    && after.turn == entry.turn
    && (if retired then after.status == Exhausted && after.attempts == entry.attempts
        else
          && after.attempts == entry.attempts + 1
          && (after.status == Exhausted <==> entry.attempts >= 3)
          && (entry.attempts == 0 ==> after.status == Retryable(now + 250))
          && (entry.attempts == 1 ==> after.status == Retryable(now + 1000))
          && (entry.attempts == 2 ==> after.status == Retryable(now + 4000)))
  }

  /** What settling the prefix leaves: each identity as it was, but for settled ones it passed. */
  lemma PrefixLeaves(st: State)
    ensures var after := st.SettlePrefix();
            && SameBesides(st, after) && after.historyStatus == st.historyStatus
            && st.settledThrough <= after.settledThrough
            && (forall j | j in after.entries :: j in st.entries && after.entries[j] == st.entries[j])
            && (forall j | j in st.entries && j !in after.entries ::
                  st.entries[j].status.IsSettled() && j <= after.settledThrough)
            && !(after.settledThrough + 1 in after.entries
                 && after.entries[after.settledThrough + 1].status.IsSettled())
  {
    hide State.SettlePrefix;
    SettlePrefixRuns(st);
    SettlePrefixFrame(st);
  }

  lemma SettledClaims(before: State, k: nat, entry: Recovery)
    requires k in before.entries && before.entries[k].status.Fetching? && !entry.status.Fetching?
    requires 1 <= k
    ensures var after := before.(entries := before.entries[k := entry]).SettlePrefix();
            && OthersStay(before, after, k)
            && SameBesides(before, after) && after.historyStatus == before.historyStatus
            && before.settledThrough <= after.settledThrough
            && (k in after.entries ==> after.entries[k] == entry)
            && (k !in after.entries ==> entry.status.IsSettled() && k <= after.settledThrough)
            && !(after.settledThrough + 1 in after.entries
                 && after.entries[after.settledThrough + 1].status.IsSettled())
  {
    hide State.SettlePrefix;
    PrefixLeaves(before.(entries := before.entries[k := entry]));
  }

  lemma SettledClaim(before: State, k: nat, entry: Recovery, j: nat)
    requires k in before.entries && before.entries[k].status.Fetching? && !entry.status.Fetching?
    requires 1 <= k
    ensures Claimed(before.(entries := before.entries[k := entry]).SettlePrefix(), j)
            <==> Claimed(before, j) || (j == k && entry.status.IsSettled())
  {
    hide State.SettlePrefix;
    var updated := before.(entries := before.entries[k := entry]);
    SettlePrefixRuns(updated);
    var after := updated.SettlePrefix();
    assert Claimed(after, j) <==> Claimed(updated, j);
  }

  lemma SettledAddsClaim(before: State, k: nat, entry: Recovery, status: Option<Status>)
    requires k in before.entries && before.entries[k].status.Fetching? && !entry.status.Fetching?
    requires 1 <= k && (entry.status.IsSettled() <==> status.Some?)
    ensures ClaimsAdded(before, before.(entries := before.entries[k := entry]).SettlePrefix(), k, status)
  {
    var after := before.(entries := before.entries[k := entry]).SettlePrefix();
    SettledClaims(before, k, entry);
    hide State.SettlePrefix;
    hide Claimed;
    forall j: nat
      ensures Claimed(after, j) <==> Claimed(before, j) || (j == k && status.Some?)
    {
      SettledClaim(before, k, entry, j);
    }
  }

  /** What the outcome of the read of `k` does to `k` itself, told by the outcome alone. */
  ghost predicate EntryTold(before: State, after: State, k: nat, status: Option<Status>, retired: bool, now: Instant) {
    && k in before.entries
    && (match status
        case Some(settled) =>
          if k in after.entries then after.entries[k] == before.entries[k].(status := settled)
          else k <= after.settledThrough
        case None => k in after.entries && IsRetried(before.entries[k], after.entries[k], retired, now))
  }

  /** What it does to the session. */
  ghost predicate OutcomeTold(s: Session, after: Session, k: nat, outcome: TurnOutcome, now: Instant) {
    && after == s.(recovery := after.recovery, tasks := after.tasks)
    && SameBesides(s.recovery, after.recovery)
    && OthersStay(s.recovery, after.recovery, k)
    && ClaimsAdded(s.recovery, after.recovery, k, Settling(outcome))
    && EntryTold(s.recovery, after.recovery, k, Settling(outcome), k < s.catalog.retainedFrom, now)
    && after.recovery.historyStatus
       == (if outcome.BodyComplete? && outcome.disordered && s.recovery.historyStatus.None? then Some(Pending)
           else s.recovery.historyStatus)
    && (forall task :: task in after.tasks <==> task in s.tasks && task != TurnTask(k))
  }

  /** For any read in flight the outcome decides: a placed complete body, a partial one or an
      unavailable one settles the completion with that status, and any other outcome leaves it
      tracked, to be read again later or given up. */
  lemma OutcomeSettlesIff(s: Session, k: nat, outcome: TurnOutcome, now: Instant)
    requires Consistent(s) && TurnTask(k) in s.tasks
    ensures OutcomeTold(s, OnRecovered(s, k, outcome, now), k, outcome, now)
  {
    hide Consistent;
    hide Settling;
    hide TurnSettled;
    hide State.SettlePrefix;
    hide ClaimsAdded;
    hide OthersStay;
    hide EntryTold;
    ReadIsTracked(s, k);
    FinishTurnRemoves(s.tasks, k);
    var entry := SettledEntry(s, k, outcome, now);
    SettledEntryIs(s, k, outcome, now);
    EntryIsTold(s, k, outcome, now);
    SettledClaims(s.recovery, k, entry);
    SettledAddsClaim(s.recovery, k, entry, Settling(outcome));
    var settled := s.recovery.(entries := s.recovery.entries[k := entry]).SettlePrefix();
    Marked(s.recovery, settled, k, Settling(outcome), k < s.catalog.retainedFrom, now);
  }

  lemma EntryIsTold(s: Session, k: nat, outcome: TurnOutcome, now: Instant)
    requires k in s.recovery.entries && s.recovery.entries[k].status.Fetching? && 1 <= k
    ensures var settled :=
              s.recovery.(entries := s.recovery.entries[k := SettledEntry(s, k, outcome, now)]).SettlePrefix();
            EntryTold(s.recovery, settled, k, Settling(outcome), k < s.catalog.retainedFrom, now)
  {
    hide State.SettlePrefix;
    SettledEntryIs(s, k, outcome, now);
    SettledClaims(s.recovery, k, SettledEntry(s, k, outcome, now));
  }

  lemma Marked(before: State, after: State, k: nat, status: Option<Status>, retired: bool, now: Instant)
    requires ClaimsAdded(before, after, k, status) && OthersStay(before, after, k)
    requires EntryTold(before, after, k, status, retired, now)
    ensures var marked := after.(historyStatus := Some(Pending));
            && ClaimsAdded(before, marked, k, status) && OthersStay(before, marked, k)
            && EntryTold(before, marked, k, status, retired, now)
  {
    assert forall j: nat :: Claimed(after.(historyStatus := Some(Pending)), j) <==> Claimed(after, j);
  }

  lemma ReadIsTracked(s: Session, k: nat)
    requires Consistent(s) && TurnTask(k) in s.tasks
    ensures 1 <= k && k in s.recovery.entries && s.recovery.entries[k].status.Fetching?
    ensures s.recovery.entries[k].attempts <= 3
  {
    assert Reading(s.recovery, k);
    assert Known(s.recovery.entries[k], s.recovery.settledThrough, s.catalog, k);
    assert WithinBudget(s.recovery.entries[k]);
  }

  /** The entry of `k` before the prefix is settled. */
  ghost function SettledEntry(s: Session, k: nat, outcome: TurnOutcome, now: Instant): Recovery
    requires k in s.recovery.entries
  {
    var entry := s.recovery.entries[k];
    if Settling(outcome).Some? then entry.(status := Settling(outcome).value)
    else if k < s.catalog.retainedFrom then entry.(status := Exhausted)
    else entry.(attempts := entry.attempts + 1,
                status := if entry.attempts >= 3 then Exhausted
                          else Retryable(now + if entry.attempts == 0 then 250
                                               else if entry.attempts == 1 then 1000 else 4000))
  }

  lemma SettledEntryIs(s: Session, k: nat, outcome: TurnOutcome, now: Instant)
    requires k in s.recovery.entries
    ensures var entry := SettledEntry(s, k, outcome, now);
            && TurnSettled(s, k, outcome, now)
               == s.recovery.(entries := s.recovery.entries[k := entry]).SettlePrefix()
            && !entry.status.Fetching?
            && (entry.status.IsSettled() <==> Settling(outcome).Some?)
  {
    hide State.SettlePrefix;
  }

  /** The range lies in its history. */
  predicate IsRange(covered: Coverage) {
    covered.from <= covered.end <= covered.total
  }

  /** The window and what was known of the same history hold every item of it together. */
  ghost predicate WholeWith(known: Option<Coverage>, covered: Coverage) {
    forall item: nat | item < covered.total ::
      covered.Holds(item) || (known.Some? && known.value.SamePin(covered) && known.value.Holds(item))
  }

  /** A window read to recover the gap proves it exactly when nothing of its history is left unread. */
  lemma GapIsProvenIff(st: State, covered: Coverage)
    requires IsRange(covered) && (st.historyCoverage.Some? ==> IsRange(st.historyCoverage.value))
    ensures st.CoverHistory(covered, true).GapIsProven() <==> WholeWith(st.historyCoverage, covered)
  {
    var after := st.CoverHistory(covered, true).historyCoverage.value;
    if WholeWith(st.historyCoverage, covered) {
      if 0 < covered.total {
        var last: nat := covered.total - 1;
        assert covered.Holds(0) || st.historyCoverage.value.Holds(0);
        assert covered.Holds(last) || st.historyCoverage.value.Holds(last);
        if st.historyCoverage.Some? && st.historyCoverage.value.SamePin(covered) {
          var known := st.historyCoverage.value;
          assert known.end < covered.total ==> covered.Holds(known.end) || known.Holds(known.end);
          assert covered.end < covered.total ==> covered.Holds(covered.end) || known.Holds(covered.end);
        }
      }
    } else {
      var item: nat :| item < covered.total && !covered.Holds(item)
                       && !(st.historyCoverage.Some? && st.historyCoverage.value.SamePin(covered)
                            && st.historyCoverage.value.Holds(item));
      assert !after.Holds(item);
    }
  }

  /** What the outcome of a history read does to the recovery state. */
  ghost predicate HistoryTold(before: State, after: State, through: nat, outcome: HistoryOutcome, now: Instant) {
    match outcome
    case TooLarge => after == before.(historyStatus := Some(Exhausted))
    case HistoryFailed =>
      && after == before.(historyStatus := after.historyStatus, historyAttempts := before.historyAttempts + 1)
      && (after.historyStatus == Some(Exhausted) <==> before.historyAttempts >= 3)
      && (before.historyAttempts == 0 ==> after.historyStatus == Some(Retryable(now + 250)))
      && (before.historyAttempts == 1 ==> after.historyStatus == Some(Retryable(now + 1000)))
      && (before.historyAttempts == 2 ==> after.historyStatus == Some(Retryable(now + 4000)))
    case Page(_) =>
      if through == before.gapThrough && after.GapIsProven() then GapTold(before, after)
      else
        after == before.(historyCoverage := after.historyCoverage,
                         historyStatus := Some(if through != before.gapThrough then Pending else Exhausted))
  }

  /** A proven gap is passed, and every failed identity left is due again with a fresh count. */
  ghost predicate GapTold(before: State, after: State) {
    && after.historyStatus == Some(Partial)
    && before.settledThrough <= after.settledThrough && before.gapThrough <= after.settledThrough
    && (forall j: nat | Max(before.settledThrough, before.gapThrough) < j <= after.settledThrough :: Claimed(before, j))
    && (forall j | j in after.entries ::
          && j in before.entries
          && after.entries[j] == if before.entries[j].status.HasFailed()
                                 then before.entries[j].(status := Pending, attempts := 0) else before.entries[j])
    && (forall j | j in before.entries && j !in after.entries ::
          before.entries[j].status.IsSettled() && j <= after.settledThrough)
  }

  /** For any history read the outcome decides: a history too large is given up, a failed read is due
      again or given up after its fourth attempt, and a window settles the gap exactly when the gap has
      not moved meanwhile and nothing of the history is left unread. */
  lemma HistoryOutcomeIsTold(s: Session, through: nat, outcome: HistoryOutcome, now: Instant)
    ensures var after := OnHistoryRecovered(s, through, outcome, now);
            && HistoryTold(s.recovery, after.recovery, through, outcome, now)
            && (outcome.Page? ==>
                  after.recovery.historyCoverage == s.recovery.CoverHistory(outcome.covered, true).historyCoverage)
  {
    if outcome.Page? {
      var merged := s.recovery.CoverHistory(outcome.covered, true);
      assert merged == s.recovery.(historyCoverage := merged.historyCoverage);
      hide State.CoverHistory;
      hide State.SettlePrefix;
      SettlePrefixRuns(merged.(settledThrough := Max(merged.settledThrough, merged.gapThrough),
                               historyStatus := Some(Partial)));
      if through == s.recovery.gapThrough && merged.GapIsProven() {
        GapIsTold(merged);
      }
    }
  }

  lemma GapIsTold(merged: State)
    requires merged.GapIsProven()
    ensures GapTold(merged, merged.SettleHistoryGap().RetryFailed())
    ensures merged.SettleHistoryGap().RetryFailed().historyCoverage == merged.historyCoverage
  {
    hide State.SettlePrefix;
    SettlePrefixRuns(merged.(settledThrough := Max(merged.settledThrough, merged.gapThrough),
                             historyStatus := Some(Partial)));
  }

  // ---- evidence in a run ------------------------------------------------

  /** The session with this epoch is not opened again after the `j`-th step. */
  ghost predicate SameLife(steps: seq<Step>, j: nat, epoch: nat) {
    forall m | j < m < |steps| :: steps[m] != Opened(epoch)
  }

  /** The verified window the step gives the session, if it is one. */
  function WindowOf(step: Step, epoch: nat): Option<Coverage> {
    if step.On? && step.epoch == epoch then
      match step.act
      case HistoryRecovered(_, Page(covered)) => Some(covered)
      case OlderPage(covered) => Some(covered)
      case _ => None
    else None
  }

  /** The step brings the outcome of the session's read of `k`, and that settles it as `status`. */
  predicate SettlesTurn(step: Step, epoch: nat, k: nat, status: Status) {
    && step.On? && step.epoch == epoch && step.act.Recovered?
    && step.act.seqNo == k && Settling(step.act.outcome) == Some(status)
  }

  ghost predicate TurnEvidence(steps: seq<Step>, epoch: nat, k: nat, status: Status) {
    exists j :: 0 <= j < |steps| && SettlesTurn(steps[j], epoch, k, status) && SameLife(steps, j, epoch)
  }

  ghost predicate WindowHolds(step: Step, epoch: nat, pin: Coverage, item: nat) {
    WindowOf(step, epoch).Some? && WindowOf(step, epoch).value.SamePin(pin) && WindowOf(step, epoch).value.Holds(item)
  }

  ghost predicate WindowAt(step: Step, epoch: nat, pin: Coverage) {
    WindowOf(step, epoch).Some? && WindowOf(step, epoch).value.SamePin(pin)
  }

  ghost predicate ItemRead(steps: seq<Step>, epoch: nat, pin: Coverage, item: nat) {
    exists j :: 0 <= j < |steps| && WindowHolds(steps[j], epoch, pin, item) && SameLife(steps, j, epoch)
  }

  ghost predicate PinRead(steps: seq<Step>, epoch: nat, pin: Coverage) {
    exists j :: 0 <= j < |steps| && WindowAt(steps[j], epoch, pin) && SameLife(steps, j, epoch)
  }

  /** Windows at one pin hold every item of that history. */
  ghost predicate WholeRead(steps: seq<Step>, epoch: nat, pin: Coverage) {
    && pin.IsComplete() && PinRead(steps, epoch, pin)
    && forall item: nat | item < pin.total :: ItemRead(steps, epoch, pin, item)
  }

  ghost predicate HistoryWasRead(steps: seq<Step>, epoch: nat) {
    exists pin :: WholeRead(steps, epoch, pin)
  }

  /** The catalog gap of the session after the steps. */
  function GapAfter(steps: seq<Step>, epoch: nat): nat {
    var residents := After(Start, steps).residents;
    var i := Position(residents, epoch);
    if i < |residents| then residents[i].recovery.gapThrough else 0
  }

  /** The `j`-th step brought a window, `k` was below the gap just before it, and with it a whole
      history was read. */
  ghost predicate GapClosed(steps: seq<Step>, j: nat, epoch: nat, k: nat)
    requires j < |steps|
  {
    && WindowOf(steps[j], epoch).Some?
    && k <= GapAfter(steps[..j], epoch)
    && HistoryWasRead(steps[..j + 1], epoch)
  }

  ghost predicate GapEvidence(steps: seq<Step>, epoch: nat, k: nat) {
    exists j :: 0 <= j < |steps| && GapClosed(steps, j, epoch, k) && SameLife(steps, j, epoch)
  }

  ghost predicate CoverageExplained(st: State, steps: seq<Step>, epoch: nat) {
    st.historyCoverage.Some? ==>
      && PinRead(steps, epoch, st.historyCoverage.value)
      && forall item: nat | st.historyCoverage.value.Holds(item) ::
           ItemRead(steps, epoch, st.historyCoverage.value, item)
  }

  ghost predicate EntriesExplained(st: State, steps: seq<Step>, epoch: nat) {
    forall k | k in st.entries && st.entries[k].status.IsSettled() ::
      TurnEvidence(steps, epoch, k, st.entries[k].status)
  }

  ghost predicate PassedFor(steps: seq<Step>, epoch: nat, k: nat) {
    GapEvidence(steps, epoch, k) || exists status :: TurnEvidence(steps, epoch, k, status)
  }

  ghost predicate WatermarkExplained(st: State, steps: seq<Step>, epoch: nat) {
    forall k: nat | 1 <= k <= st.settledThrough :: PassedFor(steps, epoch, k)
  }

  /** The run so far explains every claim of the session. */
  ghost predicate Explained(s: Session, steps: seq<Step>) {
    && CoverageExplained(s.recovery, steps, s.epoch)
    && EntriesExplained(s.recovery, steps, s.epoch)
    && WatermarkExplained(s.recovery, steps, s.epoch)
  }

  ghost predicate AllExplained(residents: seq<Session>, steps: seq<Step>) {
    forall s | s in residents :: Explained(s, steps)
  }

  // ---- evidence stays ---------------------------------------------------

  lemma SameLifeLater(steps: seq<Step>, step: Step, j: nat, epoch: nat)
    requires j < |steps| && SameLife(steps, j, epoch) && step != Opened(epoch)
    ensures SameLife(steps + [step], j, epoch) && (steps + [step])[j] == steps[j]
  {
  }

  lemma TurnEvidenceLater(steps: seq<Step>, step: Step, epoch: nat, k: nat, status: Status)
    requires TurnEvidence(steps, epoch, k, status) && step != Opened(epoch)
    ensures TurnEvidence(steps + [step], epoch, k, status)
  {
    var j :| 0 <= j < |steps| && SettlesTurn(steps[j], epoch, k, status) && SameLife(steps, j, epoch);
    SameLifeLater(steps, step, j, epoch);
  }

  lemma ItemReadLater(steps: seq<Step>, step: Step, epoch: nat, pin: Coverage, item: nat)
    requires ItemRead(steps, epoch, pin, item) && step != Opened(epoch)
    ensures ItemRead(steps + [step], epoch, pin, item)
  {
    var j :| 0 <= j < |steps| && WindowHolds(steps[j], epoch, pin, item) && SameLife(steps, j, epoch);
    SameLifeLater(steps, step, j, epoch);
  }

  lemma PinReadLater(steps: seq<Step>, step: Step, epoch: nat, pin: Coverage)
    requires PinRead(steps, epoch, pin) && step != Opened(epoch)
    ensures PinRead(steps + [step], epoch, pin)
  {
    var j :| 0 <= j < |steps| && WindowAt(steps[j], epoch, pin) && SameLife(steps, j, epoch);
    SameLifeLater(steps, step, j, epoch);
  }

  lemma GapEvidenceLater(steps: seq<Step>, step: Step, epoch: nat, k: nat)
    requires GapEvidence(steps, epoch, k) && step != Opened(epoch)
    ensures GapEvidence(steps + [step], epoch, k)
  {
    var j :| 0 <= j < |steps| && GapClosed(steps, j, epoch, k) && SameLife(steps, j, epoch);
    SameLifeLater(steps, step, j, epoch);
    assert (steps + [step])[..j] == steps[..j] && (steps + [step])[..j + 1] == steps[..j + 1];
    assert GapClosed(steps + [step], j, epoch, k);
  }

  lemma PassedForLater(steps: seq<Step>, step: Step, epoch: nat, k: nat)
    requires PassedFor(steps, epoch, k) && step != Opened(epoch)
    ensures PassedFor(steps + [step], epoch, k)
  {
    if GapEvidence(steps, epoch, k) {
      GapEvidenceLater(steps, step, epoch, k);
    } else {
      var status :| TurnEvidence(steps, epoch, k, status);
      TurnEvidenceLater(steps, step, epoch, k, status);
    }
  }

  lemma ExplainedLater(s: Session, steps: seq<Step>, step: Step)
    requires Explained(s, steps) && step != Opened(s.epoch)
    ensures Explained(s, steps + [step])
  {
    var st := s.recovery;
    hide TurnEvidence;
    hide PassedFor;
    hide ItemRead;
    hide PinRead;
    if st.historyCoverage.Some? {
      var pin := st.historyCoverage.value;
      PinReadLater(steps, step, s.epoch, pin);
      forall item: nat | pin.Holds(item)
        ensures ItemRead(steps + [step], s.epoch, pin, item)
      {
        ItemReadLater(steps, step, s.epoch, pin, item);
      }
    }
    forall k | k in st.entries && st.entries[k].status.IsSettled()
      ensures TurnEvidence(steps + [step], s.epoch, k, st.entries[k].status)
    {
      TurnEvidenceLater(steps, step, s.epoch, k, st.entries[k].status);
    }
    forall k: nat | 1 <= k <= st.settledThrough
      ensures PassedFor(steps + [step], s.epoch, k)
    {
      PassedForLater(steps, step, s.epoch, k);
    }
  }

  // ---- entry points that claim nothing ----------------------------------

  /** `b` has no claim and no coverage that `a` does not have. */
  ghost predicate ClaimsNothing(a: State, b: State) {
    && b.historyCoverage == a.historyCoverage
    && (forall k | k in b.entries && b.entries[k].status.IsSettled() ::
          k in a.entries && a.entries[k].status == b.entries[k].status)
    && (forall k: nat | a.settledThrough < k <= b.settledThrough :: k in a.entries && a.entries[k].status.IsSettled())
  }

  lemma ClaimsNothingKeeps(s: Session, t: Session, steps: seq<Step>)
    requires Explained(s, steps) && t.epoch == s.epoch && ClaimsNothing(s.recovery, t.recovery)
    ensures Explained(t, steps)
  {
    hide TurnEvidence;
    hide GapEvidence;
    hide ItemRead;
    hide PinRead;
    forall k: nat | 1 <= k <= t.recovery.settledThrough
      ensures PassedFor(steps, s.epoch, k)
    {
      if k > s.recovery.settledThrough {
        assert TurnEvidence(steps, s.epoch, k, s.recovery.entries[k].status);
      } else {
        assert PassedFor(steps, s.epoch, k);
      }
    }
  }

  /** Claims of an intermediate state are claims of the first. */
  lemma ClaimsNothingJoins(a: State, b: State, c: State)
    requires ClaimsNothing(a, b) && ClaimsNothing(b, c)
    ensures ClaimsNothing(a, c)
  {
  }

  lemma SettlePrefixClaimsNothing(st: State)
    ensures ClaimsNothing(st, st.SettlePrefix())
  {
    SettlePrefixRuns(st);
  }

  lemma AdmitOneClaimsNothing(st: State, turn: CompletedTurn, capacity: nat)
    ensures ClaimsNothing(st, st.AdmitOne(turn, capacity))
  {
  }

  lemma {:induction false} AdmitClaimsNothing(st: State, turns: seq<CompletedTurn>, capacity: nat)
    ensures ClaimsNothing(st, st.Admit(turns, capacity))
  {
    if turns != [] {
      var before := st.Admit(turns[..|turns| - 1], capacity);
      AdmitClaimsNothing(st, turns[..|turns| - 1], capacity);
      AdmitOneClaimsNothing(before, turns[|turns| - 1], capacity);
      hide ClaimsNothing;
      ClaimsNothingJoins(st, before, before.AdmitOne(turns[|turns| - 1], capacity));
    }
  }

  lemma PruneClaimsNothing(st: State, d: Directory)
    ensures ClaimsNothing(st, st.RaiseGap(d).Prune(d).(behind := false))
  {
  }

  lemma DiscoverClaimsNothing(st: State, d: Directory, limit: nat)
    ensures ClaimsNothing(st, st.Discover(d, limit))
  {
    var pruned := st.RaiseGap(d).Prune(d).(behind := false);
    var admitted := pruned.Admit(d.entries, Min(limit, IDENTITIES_PER_LOAD));
    hide ClaimsNothing;
    hide State.Admit;
    hide State.SettlePrefix;
    PruneClaimsNothing(st, d);
    AdmitClaimsNothing(pruned, d.entries, Min(limit, IDENTITIES_PER_LOAD));
    SettlePrefixClaimsNothing(admitted);
    ClaimsNothingJoins(st, pruned, admitted);
    ClaimsNothingJoins(st, admitted, admitted.SettlePrefix());
  }

  lemma StartReadClaimsNothing(s: Session, now: Instant)
    ensures ClaimsNothing(s.recovery, StartRead(s, now).recovery) && StartRead(s, now).epoch == s.epoch
  {
    if !(!s.HistoryRunning() && s.recovery.HistoryDue(now)) && s.recovery.Ready(now).Some? {
      var k := s.recovery.Ready(now).value.seqNo;
      var updated := if k in s.recovery.entries
                     then s.recovery.(entries := s.recovery.entries[k := s.recovery.entries[k].(status := Fetching)])
                     else s.recovery;
      assert ClaimsNothing(s.recovery, updated);
      SettlePrefixClaimsNothing(updated);
      ClaimsNothingJoins(s.recovery, updated, updated.SettlePrefix());
    }
  }

  lemma DeferClaimsNothing(st: State)
    ensures ClaimsNothing(st, st.DeferUnstarted())
  {
  }

  lemma RetryFailedClaimsNothing(st: State)
    ensures ClaimsNothing(st, st.RetryFailed())
  {
  }

  // ---- scheduling -------------------------------------------------------

  ghost predicate NoClaims(a: seq<Session>, b: seq<Session>) {
    && |a| == |b|
    && forall i | 0 <= i < |a| :: b[i].epoch == a[i].epoch && ClaimsNothing(a[i].recovery, b[i].recovery)
  }

  lemma NoClaimsJoins(a: seq<Session>, b: seq<Session>, c: seq<Session>)
    requires NoClaims(a, b) && NoClaims(b, c)
    ensures NoClaims(a, c)
  {
    hide ClaimsNothing;
    forall i | 0 <= i < |a|
      ensures c[i].epoch == a[i].epoch && ClaimsNothing(a[i].recovery, c[i].recovery)
    {
      ClaimsNothingJoins(a[i].recovery, b[i].recovery, c[i].recovery);
    }
  }

  lemma ReplacedClaims(residents: seq<Session>, i: nat, s: Session)
    requires i < |residents| && s.epoch == residents[i].epoch && ClaimsNothing(residents[i].recovery, s.recovery)
    ensures NoClaims(residents, residents[i := s])
  {
    assert forall j | 0 <= j < |residents| :: ClaimsNothing(residents[j].recovery, residents[j].recovery);
    hide ClaimsNothing;
  }

  lemma MakeRoomClaims(residents: seq<Session>, i: nat, now: Instant)
    requires i < |residents|
    ensures NoClaims(residents, MakeRoom(residents, i, now).0)
  {
    hide ClaimsNothing;
    hide State.DeferUnstarted;
    hide CapacityFor;
    hide Starved;
    var j := Donor(residents, residents[i].epoch);
    if j < |residents| {
      DeferClaimsNothing(residents[j].recovery);
      ReplacedClaims(residents, j, residents[j].(recovery := residents[j].recovery.DeferUnstarted()));
    }
    SameClaims(residents);
  }

  lemma SameClaims(residents: seq<Session>)
    ensures NoClaims(residents, residents)
  {
  }

  lemma RecoverResidentClaims(residents: seq<Session>, epoch: nat, now: Instant)
    ensures NoClaims(residents, RecoverResident(residents, epoch, now).0)
  {
    hide ClaimsNothing;
    hide MakeRoom;
    hide State.Discover;
    hide StartRead;
    var i := Position(residents, epoch);
    if i == |residents| {
      SameClaims(residents);
    } else {
      MakeRoomClaims(residents, i, now);
      var (roomy, limit) := MakeRoom(residents, i, now);
      var known := roomy[i].(recovery := roomy[i].recovery.Discover(roomy[i].catalog, limit));
      DiscoverClaimsNothing(roomy[i].recovery, roomy[i].catalog, limit);
      StartReadClaimsNothing(known, now);
      ClaimsNothingJoins(roomy[i].recovery, known.recovery, StartRead(known, now).recovery);
      ReplacedClaims(roomy, i, StartRead(known, now));
      NoClaimsJoins(residents, roomy, roomy[i := StartRead(known, now)]);
    }
  }

  lemma {:induction false} PassClaims(p: Progress, order: seq<nat>, now: Instant)
    ensures NoClaims(p.residents, Pass(p, order, now).residents)
    decreases |order|
  {
    hide NoClaims;
    hide RecoverResident;
    SameClaims(p.residents);
    if order != [] && p.slots != 0 {
      var (residents, started) := RecoverResident(p.residents, order[0], now);
      var next := if started then Progress(residents, p.slots - 1, Some(order[0])) else p.(residents := residents);
      RecoverResidentClaims(p.residents, order[0], now);
      PassClaims(next, order[1..], now);
      NoClaimsJoins(p.residents, residents, Pass(next, order[1..], now).residents);
    }
  }

  lemma {:induction false} RoundsClaims(n: nat, p: Progress, order: seq<nat>, now: Instant)
    ensures NoClaims(p.residents, Rounds(n, p, order, now).residents)
  {
    hide NoClaims;
    hide Pass;
    SameClaims(p.residents);
    if n != 0 && p.slots != 0 {
      var q := Pass(p, order, now);
      PassClaims(p, order, now);
      RoundsClaims(n - 1, q, order, now);
      NoClaimsJoins(p.residents, q.residents, Rounds(n - 1, q, order, now).residents);
    }
  }

  lemma ScheduledExplained(w: World, steps: seq<Step>)
    requires AllExplained(w.residents, steps)
    ensures AllExplained(RecoverCompletions(w).residents, steps)
  {
    hide Explained;
    hide Rounds;
    hide Rotation;
    hide ClaimsNothing;
    hide FreeSlots;
    RoundsClaims(CONCURRENT, Progress(w.residents, FreeSlots(w.residents), w.recoveryAfter),
                 Rotation(w.residents, w.recoveryAfter), w.now);
    var after := RecoverCompletions(w).residents;
    forall t | t in after
      ensures Explained(t, steps)
    {
      var i :| 0 <= i < |after| && after[i] == t;
      assert w.residents[i] in w.residents;
      ClaimsNothingKeeps(w.residents[i], t, steps);
    }
  }

  // ---- the handlers -----------------------------------------------------

  lemma RecoveredExplained(s: Session, k: nat, outcome: TurnOutcome, now: Instant, steps: seq<Step>)
    requires Consistent(s) && TurnTask(k) in s.tasks && Explained(s, steps)
    ensures Explained(OnRecovered(s, k, outcome, now), steps + [On(s.epoch, Recovered(k, outcome))])
  {
    var t := OnRecovered(s, k, outcome, now);
    var step := On(s.epoch, Recovered(k, outcome));
    OutcomeSettlesIff(s, k, outcome, now);
    ExplainedLater(s, steps, step);
    hide Consistent;
    hide OnRecovered;
    hide TurnEvidence;
    hide GapEvidence;
    if Settling(outcome).Some? {
      SettlesNow(steps, s.epoch, k, outcome);
    }
    ToldExplained(s, t, k, outcome, now, steps + [step]);
  }

  lemma SettlesNow(steps: seq<Step>, epoch: nat, k: nat, outcome: TurnOutcome)
    requires Settling(outcome).Some?
    ensures TurnEvidence(steps + [On(epoch, Recovered(k, outcome))], epoch, k, Settling(outcome).value)
  {
    var all := steps + [On(epoch, Recovered(k, outcome))];
    assert SettlesTurn(all[|steps|], epoch, k, Settling(outcome).value) && SameLife(all, |steps|, epoch);
  }

  lemma ToldExplained(s: Session, t: Session, k: nat, outcome: TurnOutcome, now: Instant, steps: seq<Step>)
    requires OutcomeTold(s, t, k, outcome, now) && Explained(s, steps)
    requires Settling(outcome).Some? ==> TurnEvidence(steps, s.epoch, k, Settling(outcome).value)
    ensures Explained(t, steps)
  {
    hide TurnEvidence;
    hide GapEvidence;
    hide ItemRead;
    hide PinRead;
    hide Settling;
    ToldEntries(s, t, k, outcome, now, steps);
    forall j: nat | 1 <= j <= t.recovery.settledThrough
      ensures PassedFor(steps, s.epoch, j)
    {
      assert Claimed(t.recovery, j);
      if !(j == k && Settling(outcome).Some?) && s.recovery.settledThrough < j {
        assert Claimed(s.recovery, j);
        assert TurnEvidence(steps, s.epoch, j, s.recovery.entries[j].status);
      }
    }
  }

  lemma ToldEntries(s: Session, t: Session, k: nat, outcome: TurnOutcome, now: Instant, steps: seq<Step>)
    requires OutcomeTold(s, t, k, outcome, now) && EntriesExplained(s.recovery, steps, s.epoch)
    requires Settling(outcome).Some? ==> TurnEvidence(steps, s.epoch, k, Settling(outcome).value)
    ensures EntriesExplained(t.recovery, steps, s.epoch)
  {
    hide TurnEvidence;
    hide Settling;
    hide ClaimsAdded;
    forall j | j in t.recovery.entries && t.recovery.entries[j].status.IsSettled()
      ensures TurnEvidence(steps, s.epoch, j, t.recovery.entries[j].status)
    {
      assert j == k ==> Settling(outcome).Some?;
    }
  }

  /** After a window the coverage is that of windows read in this life. */
  lemma WindowExplained(st: State, epoch: nat, covered: Coverage, authoritative: bool, steps: seq<Step>, step: Step)
    requires CoverageExplained(st, steps, epoch) && WindowOf(step, epoch) == Some(covered)
    ensures CoverageExplained(st.CoverHistory(covered, authoritative), steps + [step], epoch)
  {
    var all := steps + [step];
    var after := st.CoverHistory(covered, authoritative);
    assert SameLife(all, |steps|, epoch) && all[|steps|] == step;
    hide ItemRead;
    hide PinRead;
    if after.historyCoverage.Some? {
      var pin := after.historyCoverage.value;
      if covered.SamePin(pin) {
        WindowPin(steps, step, epoch, covered, pin);
      } else {
        PinReadLater(steps, step, epoch, pin);
      }
      forall item: nat | pin.Holds(item)
        ensures ItemRead(all, epoch, pin, item)
      {
        if covered.SamePin(pin) && covered.Holds(item) {
          WindowItem(steps, step, epoch, covered, pin, item);
        } else {
          var known := st.historyCoverage.value;
          assert known.Holds(item) && known.SamePin(pin);
          ItemReadLater(steps, step, epoch, known, item);
          ItemReadSamePin(all, epoch, known, pin, item);
        }
      }
    }
  }

  lemma WindowPin(steps: seq<Step>, step: Step, epoch: nat, covered: Coverage, pin: Coverage)
    requires WindowOf(step, epoch) == Some(covered) && covered.SamePin(pin)
    ensures PinRead(steps + [step], epoch, pin)
  {
    assert WindowAt((steps + [step])[|steps|], epoch, pin) && SameLife(steps + [step], |steps|, epoch);
  }

  lemma WindowItem(steps: seq<Step>, step: Step, epoch: nat, covered: Coverage, pin: Coverage, item: nat)
    requires WindowOf(step, epoch) == Some(covered) && covered.SamePin(pin) && covered.Holds(item)
    ensures ItemRead(steps + [step], epoch, pin, item)
  {
    assert WindowHolds((steps + [step])[|steps|], epoch, pin, item) && SameLife(steps + [step], |steps|, epoch);
  }

  lemma ItemReadSamePin(steps: seq<Step>, epoch: nat, a: Coverage, b: Coverage, item: nat)
    requires ItemRead(steps, epoch, a, item) && a.SamePin(b)
    ensures ItemRead(steps, epoch, b, item)
  {
    var j :| 0 <= j < |steps| && WindowHolds(steps[j], epoch, a, item) && SameLife(steps, j, epoch);
    assert WindowHolds(steps[j], epoch, b, item);
  }

  /** A gap is settled only at a window that completes a whole history. */
  lemma SettledGapExplained(s: Session, merged: State, steps: seq<Step>, step: Step)
    requires Explained(s, steps) && WindowOf(step, s.epoch).Some? && GapAfter(steps, s.epoch) == s.recovery.gapThrough
    requires merged == s.recovery.(historyCoverage := merged.historyCoverage)
    requires CoverageExplained(merged, steps + [step], s.epoch)
    ensures Explained(s.(recovery := merged), steps + [step])
    ensures Explained(s.(recovery := merged.SettleHistoryGap()), steps + [step])
  {
    hide TurnEvidence;
    hide GapEvidence;
    hide CoverageExplained;
    ExplainedLater(s, steps, step);
    if merged.GapIsProven() {
      var raised := merged.(settledThrough := Max(merged.settledThrough, merged.gapThrough),
                            historyStatus := Some(Partial));
      forall k: nat | 1 <= k <= raised.settledThrough
        ensures PassedFor(steps + [step], s.epoch, k)
      {
        if k <= s.recovery.settledThrough {
          assert PassedFor(steps + [step], s.epoch, k);
        } else {
          ClosesNow(s.epoch, merged, steps, step, k);
        }
      }
      SameCoverage(merged, raised, steps + [step], s.epoch);
      SettlePrefixClaimsNothing(raised);
      ClaimsNothingKeeps(s.(recovery := raised), s.(recovery := raised.SettlePrefix()), steps + [step]);
    }
  }

  lemma SameCoverage(a: State, b: State, steps: seq<Step>, epoch: nat)
    requires CoverageExplained(a, steps, epoch) && b.historyCoverage == a.historyCoverage
    ensures CoverageExplained(b, steps, epoch)
  {
  }

  lemma ClosesNow(epoch: nat, merged: State, steps: seq<Step>, step: Step, k: nat)
    requires WindowOf(step, epoch).Some? && k <= GapAfter(steps, epoch)
    requires merged.GapIsProven() && CoverageExplained(merged, steps + [step], epoch)
    ensures GapEvidence(steps + [step], epoch, k)
  {
    hide GapAfter;
    var all := steps + [step];
    assert all[..|steps|] == steps && all[..|steps| + 1] == all;
    assert WholeRead(all, epoch, merged.historyCoverage.value);
    assert GapClosed(all, |steps|, epoch, k) && SameLife(all, |steps|, epoch);
  }

  lemma HistoryRecoveredExplained(s: Session, through: nat, outcome: HistoryOutcome, now: Instant, steps: seq<Step>)
    requires Explained(s, steps) && GapAfter(steps, s.epoch) == s.recovery.gapThrough
    ensures Explained(OnHistoryRecovered(s, through, outcome, now),
                      steps + [On(s.epoch, HistoryRecovered(through, outcome))])
  {
    var step := On(s.epoch, HistoryRecovered(through, outcome));
    var t := OnHistoryRecovered(s, through, outcome, now);
    hide GapAfter;
    hide State.SettleHistoryGap;
    hide State.RetryFailed;
    ExplainedLater(s, steps, step);
    if outcome.Page? {
      var merged := s.recovery.CoverHistory(outcome.covered, true);
      WindowExplained(s.recovery, s.epoch, outcome.covered, true, steps, step);
      assert merged == s.recovery.(historyCoverage := merged.historyCoverage);
      hide State.CoverHistory;
      hide Explained;
      SettledGapExplained(s, merged, steps, step) by { assert Explained(s, steps); }
      var settled := merged.SettleHistoryGap();
      RetryFailedClaimsNothing(settled);
      ClaimsNothingKeeps(s.(recovery := settled), s.(recovery := settled.RetryFailed()), steps + [step]);
      SameStateClaims(settled.RetryFailed());
      ClaimsNothingKeeps(s.(recovery := settled.RetryFailed()), t.(recovery := settled.RetryFailed()), steps + [step]);
      if t.recovery != settled.RetryFailed() {
        MarkedClaimsNothing(merged, t.recovery);
        ClaimsNothingKeeps(s.(recovery := merged), t, steps + [step]);
      }
    } else {
      hide Explained;
      MarkedClaimsNothing(s.recovery, t.recovery);
      ClaimsNothingKeeps(s, t, steps + [step]);
    }
  }

  lemma SameStateClaims(st: State)
    ensures ClaimsNothing(st, st)
  {
  }

  lemma MarkedClaimsNothing(a: State, b: State)
    requires b == a.(historyStatus := b.historyStatus, historyAttempts := b.historyAttempts)
    ensures ClaimsNothing(a, b)
  {
  }

  lemma OlderPageExplained(s: Session, covered: Coverage, steps: seq<Step>)
    requires Explained(s, steps) && GapAfter(steps, s.epoch) == s.recovery.gapThrough
    ensures Explained(OnOlderPage(s, covered), steps + [On(s.epoch, OlderPage(covered))])
  {
    var step := On(s.epoch, OlderPage(covered));
    hide GapAfter;
    hide State.SettleHistoryGap;
    ExplainedLater(s, steps, step);
    var merged := s.recovery.CoverHistory(covered, false);
    WindowExplained(s.recovery, s.epoch, covered, false, steps, step);
    assert merged == s.recovery.(historyCoverage := merged.historyCoverage);
    hide State.CoverHistory;
    hide Explained;
    SettledGapExplained(s, merged, steps, step) by { assert Explained(s, steps); }
  }

  lemma SnapshotExplained(residents: seq<Session>, i: nat, revision: nat, directory: Directory, steps: seq<Step>)
    requires i < |residents| && Explained(residents[i], steps)
    ensures Explained(OnSnapshot(residents, i, revision, directory),
                      steps + [On(residents[i].epoch, Snapshot(revision, directory))])
  {
    var s := residents[i];
    var t := OnSnapshot(residents, i, revision, directory);
    var step := On(s.epoch, Snapshot(revision, directory));
    ExplainedLater(s, steps, step);
    hide Explained;
    hide State.Discover;
    var revised := s.recovery.(revision := revision);
    DiscoverClaimsNothing(revised, directory, CapacityFor(residents, s.epoch));
    assert ClaimsNothing(s.recovery, revised);
    ClaimsNothingJoins(s.recovery, revised, revised.Discover(directory, CapacityFor(residents, s.epoch)));
    hide CapacityFor;
    if revision > s.recovery.revision {
      ClaimsNothingKeeps(s, t, steps + [step]);
    }
  }

  lemma ActExplained(residents: seq<Session>, i: nat, act: Act, now: Instant, steps: seq<Step>)
    requires i < |residents| && Consistent(residents[i]) && Allowed(residents[i], act)
    requires Explained(residents[i], steps)
    requires GapAfter(steps, residents[i].epoch) == residents[i].recovery.gapThrough
    requires !act.Closed? && !act.Selected?
    ensures var after := HandleAct(residents, i, act, now);
            && |after| == |residents| && after == residents[i := after[i]]
            && Explained(after[i], steps + [On(residents[i].epoch, act)])
  {
    var s := residents[i];
    hide OnSnapshot;
    hide OnRecovered;
    hide OnHistoryRecovered;
    hide OnOlderPage;
    hide State.RetryFailed;
    hide Consistent;
    hide Explained;
    hide GapAfter;
    match act
    case Snapshot(revision, directory) => SnapshotExplained(residents, i, revision, directory, steps);
    case Recovered(k, outcome) => RecoveredExplained(s, k, outcome, now, steps);
    case HistoryRecovered(through, result) => HistoryRecoveredExplained(s, through, result, now, steps);
    case UserRetry =>
      ExplainedLater(s, steps, On(s.epoch, act));
      RetryFailedClaimsNothing(s.recovery);
      ClaimsNothingKeeps(s, s.(recovery := s.recovery.RetryFailed()), steps + [On(s.epoch, act)]);
    case OlderPage(covered) => OlderPageExplained(s, covered, steps);
  }

  lemma HandledActExplained(w: World, epoch: nat, act: Act, steps: seq<Step>)
    requires w == After(Start, steps) && Lawful(w.residents) && Enabled(w, On(epoch, act))
    requires AllExplained(w.residents, steps)
    ensures AllExplained(Handle(w, On(epoch, act)).residents, steps + [On(epoch, act)])
  {
    var i := Position(w.residents, epoch);
    var s := w.residents[i];
    assert Consistent(s) && s in w.residents;
    assert GapAfter(steps, epoch) == s.recovery.gapThrough;
    hide Lawful;
    hide Consistent;
    hide Allowed;
    hide Explained;
    hide GapAfter;
    forall t | t in w.residents
      ensures Explained(t, steps + [On(epoch, act)])
    {
      ExplainedLater(t, steps, On(epoch, act));
    }
    var after := Handle(w, On(epoch, act)).residents;
    assert after == HandleAct(w.residents, i, act, w.now);
    if act.Closed? || act.Selected? {
      MovedSessions(w.residents, i, act, w.now);
    } else {
      ActExplained(w.residents, i, act, w.now, steps);
      hide HandleAct;
      forall t | t in after
        ensures Explained(t, steps + [On(epoch, act)])
      {
        assert t in w.residents || t == after[i];
      }
    }
  }

  lemma MovedSessions(residents: seq<Session>, i: nat, act: Act, now: Instant)
    requires i < |residents| && (act.Closed? || act.Selected?)
    ensures forall t | t in HandleAct(residents, i, act, now) :: t in residents
  {
  }

  lemma HandledExplained(w: World, step: Step, steps: seq<Step>)
    requires w == After(Start, steps) && Lawful(w.residents) && Enabled(w, step)
    requires AllExplained(w.residents, steps)
    ensures AllExplained(Handle(w, step).residents, steps + [step])
  {
    hide Lawful;
    hide Explained;
    match step
    case Opened(epoch) =>
      FreshIsExplained(Session(epoch, Unpublished, Fresh, []), steps + [step]);
      OthersExplained(w.residents, step, steps);
    case Tick(_) => OthersExplained(w.residents, step, steps);
    case On(epoch, act) => HandledActExplained(w, epoch, act, steps);
  }

  lemma OthersExplained(residents: seq<Session>, step: Step, steps: seq<Step>)
    requires AllExplained(residents, steps) && forall t | t in residents :: step != Opened(t.epoch)
    ensures AllExplained(residents, steps + [step])
  {
    hide Explained;
    forall t | t in residents
      ensures Explained(t, steps + [step])
    {
      ExplainedLater(t, steps, step);
    }
  }

  lemma FreshIsExplained(s: Session, steps: seq<Step>)
    requires s.recovery == Fresh
    ensures Explained(s, steps)
  {
  }

  // ---- whole runs -------------------------------------------------------

  lemma {:induction false} AfterOneMore(w: World, steps: seq<Step>, step: Step)
    ensures After(w, steps + [step]) == Next(After(w, steps), step)
    decreases |steps|
  {
    if steps != [] {
      AfterOneMore(Next(w, steps[0]), steps[1..], step);
      assert (steps + [step])[1..] == steps[1..] + [step];
    }
  }

  lemma {:induction false} RunExplained(done: seq<Step>, steps: seq<Step>)
    requires var w := After(Start, done);
             Lawful(w.residents) && AllExplained(w.residents, done) && RunsFrom(w, steps)
    ensures AllExplained(After(Start, done + steps).residents, done + steps)
    decreases |steps|
  {
    hide Lawful;
    hide AllExplained;
    hide Next;
    if steps == [] {
      assert done + steps == done;
    } else {
      var w := After(Start, done);
      var step := steps[0];
      AfterOneMore(Start, done, step);
      NextLawful(w, step);
      NextExplained(w, step, done);
      RunExplained(done + [step], steps[1..]);
      assert done + [step] + steps[1..] == done + steps;
    }
  }

  lemma NextExplained(w: World, step: Step, steps: seq<Step>)
    requires w == After(Start, steps) && Lawful(w.residents) && Enabled(w, step)
    requires AllExplained(w.residents, steps)
    ensures AllExplained(Next(w, step).residents, steps + [step])
  {
    hide Lawful;
    hide AllExplained;
    hide Handle;
    hide RecoverCompletions;
    HandledExplained(w, step, steps);
    ScheduledExplained(Handle(w, step), steps + [step]);
  }

  /** In every reachable state: a tracked completion is recorded settled only with the status of an
      outcome of its own read, and each sequence the watermark passed had such an outcome, or lay below
      the gap when a window completed the read of a whole history; all in the life of the session. */
  lemma WatermarkMovesOnOutcomes(steps: seq<Step>, i: nat, k: nat)
    requires RunsFrom(Start, steps) && i < |After(Start, steps).residents|
    ensures var s := After(Start, steps).residents[i];
            && (1 <= k <= s.recovery.settledThrough ==>
                  || (exists status :: TurnEvidence(steps, s.epoch, k, status))
                  || GapEvidence(steps, s.epoch, k))
            && (k in s.recovery.entries && s.recovery.entries[k].status.IsSettled() ==>
                  TurnEvidence(steps, s.epoch, k, s.recovery.entries[k].status))
  {
    assert After(Start, []) == Start;
    RunExplained([], steps);
    assert [] + steps == steps;
    var s := After(Start, steps).residents[i];
    assert s in After(Start, steps).residents;
    assert Explained(s, steps);
    hide TurnEvidence;
    hide GapEvidence;
    if 1 <= k <= s.recovery.settledThrough {
      assert PassedFor(steps, s.epoch, k);
    }
  }
}
