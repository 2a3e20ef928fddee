/**
 Recovery across resident sessions: which session's unsettled completion is read next,
 how identities move between loads when the shared budget is full, and what each
 outcome does. Every function is one handler of the application; `Residents.Resident` and
 `Apps.App` compute them in place.
 */
module Scheduler {
  import opened Wrappers
  import opened Completion

  /** One recovery read in flight: a turn body, or the history below a catalog gap. */
  datatype Task = TurnTask(seqNo: nat) | HistoryTask(through: nat)

  datatype Session = Session(epoch: nat, catalog: Directory, recovery: State, tasks: seq<Task>)
  {
    predicate HistoryRunning() {
      exists i :: 0 <= i < |tasks| && tasks[i].HistoryTask?
    }
  }

  datatype World = World(residents: seq<Session>, recoveryAfter: Option<nat>, now: Instant)

  /** How a turn body read ended. `placed` says the body was installed or already canonical;
      `disordered` says it could not be ordered against the transcript. */
  datatype TurnOutcome =
    | BodyComplete(placed: bool, disordered: bool)
    | BodyPartial
    | BodyUnavailable
    | BodyPending
    | BodyFailed

  datatype HistoryOutcome = Page(covered: Coverage) | TooLarge | HistoryFailed

  // ---- shared budget --------------------------------------------------

  function Tracked(residents: seq<Session>): nat {
    if residents == [] then 0 else |residents[0].recovery.entries| + Tracked(residents[1..])
  }

  function TrackedByOthers(residents: seq<Session>, epoch: nat): nat {
    if residents == [] then 0
    else
      var own := if residents[0].epoch != epoch then |residents[0].recovery.entries| else 0;
      own + TrackedByOthers(residents[1..], epoch)
  }

  function InFlight(residents: seq<Session>): nat {
    if residents == [] then 0 else |residents[0].tasks| + InFlight(residents[1..])
  }

  function CapacityFor(residents: seq<Session>, epoch: nat): nat {
    Monus(IDENTITIES_TOTAL, TrackedByOthers(residents, epoch))
  }

  /** Where the session with `epoch` is, or the length when it is gone. */
  function Position(residents: seq<Session>, epoch: nat): (i: nat)
    ensures i <= |residents|
    ensures i < |residents| ==> residents[i].epoch == epoch
    ensures forall j | 0 <= j < i :: residents[j].epoch != epoch
  {
    if residents == [] then 0
    else if residents[0].epoch == epoch then 0
    else 1 + Position(residents[1..], epoch)
  }

  // ---- one resident ---------------------------------------------------

  /** The first session other than `epoch` with an identity to give up, or the length. */
  function Donor(residents: seq<Session>, epoch: nat): (i: nat)
    ensures i <= |residents|
    ensures i < |residents| ==> residents[i].epoch != epoch && residents[i].recovery.Unstarted() != {}
  {
    if residents == [] then 0
    else if residents[0].epoch != epoch && residents[0].recovery.Unstarted() != {} then 0
    else 1 + Donor(residents[1..], epoch)
  }

  /** Whether a load that is behind has no room and nothing of its own to do. */
  predicate Starved(s: Session, limit: nat, now: Instant) {
    && s.recovery.behind
    && limit < IDENTITIES_PER_LOAD
    && |s.recovery.entries| == limit
    && s.recovery.Ready(now).None?
  }

  /** Lets another load give up one identity, and returns the room that is left. */
  function MakeRoom(residents: seq<Session>, i: nat, now: Instant): (seq<Session>, nat)
    requires i < |residents|
  {
    var limit := CapacityFor(residents, residents[i].epoch);
    var j := Donor(residents, residents[i].epoch);
    if Starved(residents[i], limit, now) && j < |residents| then
      (residents[j := residents[j].(recovery := residents[j].recovery.DeferUnstarted())], limit + 1)
    else
      (residents, limit)
  }

  /** Starts at most one read of a session whose directory was just applied again. */
  function StartRead(s: Session, now: Instant): Session {
    if !s.HistoryRunning() && s.recovery.HistoryDue(now) then
      s.(recovery := s.recovery.(historyStatus := Some(Fetching)),
         tasks := s.tasks + [HistoryTask(s.recovery.gapThrough)])
    else match s.recovery.Ready(now)
      case Some(turn) =>
        s.(recovery := s.recovery.Record(turn.seqNo, Fetching), tasks := s.tasks + [TurnTask(turn.seqNo)])
      case None => s
  }

  function RecoverResident(residents: seq<Session>, epoch: nat, now: Instant): (seq<Session>, bool) {
    var i := Position(residents, epoch);
    if i == |residents| then (residents, false)
    else
      var (roomy, limit) := MakeRoom(residents, i, now);
      var known := roomy[i].(recovery := roomy[i].recovery.Discover(roomy[i].catalog, limit));
      var next := StartRead(known, now);
      (roomy[i := next], |next.tasks| > |known.tasks|)
  }

  // ---- rotation -------------------------------------------------------

  function EpochsOf(residents: seq<Session>): set<nat> {
    set s | s in residents :: s.epoch
  }

  function Ascending(s: set<nat>): seq<nat>
    decreases |s|
  {
    if s == {} then [] else [Least(s)] + Ascending(s - {Least(s)})
  }

  /** How many of the ascending `epochs` are at most `last`. */
  function PartitionPoint(epochs: seq<nat>, last: nat): (n: nat)
    ensures n <= |epochs|
    ensures forall i | 0 <= i < n :: epochs[i] <= last
    ensures n < |epochs| ==> epochs[n] > last
  {
    if epochs == [] || epochs[0] > last then 0 else 1 + PartitionPoint(epochs[1..], last)
  }

  /** Every session once, starting after the one served last. */
  function Rotation(residents: seq<Session>, recoveryAfter: Option<nat>): seq<nat> {
    var epochs := Ascending(EpochsOf(residents));
    var next := match recoveryAfter case None => 0 case Some(last) => PartitionPoint(epochs, last);
    epochs[next..] + epochs[..next]
  }

  /** What the scheduler's loops carry along. */
  datatype Progress = Progress(residents: seq<Session>, slots: nat, after: Option<nat>)

  function Pass(p: Progress, order: seq<nat>, now: Instant): Progress
    decreases |order|
  {
    if order == [] || p.slots == 0 then p
    else
      var (residents, started) := RecoverResident(p.residents, order[0], now);
      Pass(if started then Progress(residents, p.slots - 1, Some(order[0])) else p.(residents := residents),
           order[1..], now)
  }

  function Rounds(n: nat, p: Progress, order: seq<nat>, now: Instant): Progress {
    if n == 0 || p.slots == 0 then p
    else
      var q := Pass(p, order, now);
      if q.slots == p.slots then q else Rounds(n - 1, q, order, now)
  }

  function FreeSlots(residents: seq<Session>): nat {
    Monus(CONCURRENT, InFlight(residents))
  }

  function Scheduled(w: World): Progress {
    Rounds(CONCURRENT, Progress(w.residents, FreeSlots(w.residents), w.recoveryAfter),
           Rotation(w.residents, w.recoveryAfter), w.now)
  }

  function RecoverCompletions(w: World): World {
    var p := Scheduled(w);
    w.(residents := p.residents, recoveryAfter := p.after)
  }

  /** How many reads one scheduling round starts. */
  function Starts(w: World): nat {
    Monus(FreeSlots(w.residents), Scheduled(w).slots)
  }

  // ---- outcomes -------------------------------------------------------

  function FinishTurn(tasks: seq<Task>, seqNo: nat): seq<Task> {
    if tasks == [] then []
    else (if tasks[0] == TurnTask(seqNo) then [] else [tasks[0]]) + FinishTurn(tasks[1..], seqNo)
  }

  function FinishHistory(tasks: seq<Task>): seq<Task> {
    if tasks == [] then []
    else (if tasks[0].HistoryTask? then [] else [tasks[0]]) + FinishHistory(tasks[1..])
  }

  /** What the outcome of a turn read leaves of the recovery state. */
  function TurnSettled(s: Session, k: nat, outcome: TurnOutcome, now: Instant): State {
    match outcome
    case BodyComplete(placed, _) =>
      if placed then s.recovery.Record(k, Complete) else s.recovery.RetryRetained(k, s.catalog.retainedFrom, now)
    case BodyPartial => s.recovery.Record(k, Partial)
    case BodyUnavailable => s.recovery.Record(k, Unavailable)
    case BodyPending => s.recovery.RetryRetained(k, s.catalog.retainedFrom, now)
    case BodyFailed => s.recovery.RetryRetained(k, s.catalog.retainedFrom, now)
  }

  function OnRecovered(s: Session, k: nat, outcome: TurnOutcome, now: Instant): Session {
    var tasks := FinishTurn(s.tasks, k);
    if k !in s.recovery.entries then s.(tasks := tasks)
    else
      var settled := TurnSettled(s, k, outcome, now);
      var disordered := outcome.BodyComplete? && outcome.disordered && settled.historyStatus.None?;
      s.(recovery := if disordered then settled.(historyStatus := Some(Pending)) else settled, tasks := tasks)
  }

  function OnHistoryRecovered(s: Session, through: nat, outcome: HistoryOutcome, now: Instant): Session {
    var done := s.(tasks := FinishHistory(s.tasks));
    match outcome
    case TooLarge => done.(recovery := s.recovery.(historyStatus := Some(Exhausted)))
    case HistoryFailed => done.(recovery := s.recovery.RetryHistory(now))
    case Page(covered) =>
      var merged := s.recovery.CoverHistory(covered, true);
      done.(recovery :=
        if through != s.recovery.gapThrough then merged.(historyStatus := Some(Pending))
        else if !merged.GapIsProven() then merged.(historyStatus := Some(Exhausted))
        else merged.SettleHistoryGap().RetryFailed())
  }

  /** An older page of another pin leaves partial coverage alone. */
  predicate Ignores(s: Session, covered: Coverage) {
    && s.recovery.historyCoverage.Some?
    && !s.recovery.historyCoverage.value.IsComplete()
    && !s.recovery.historyCoverage.value.SamePin(covered)
  }

  /** Whether a loaded older page completes the proof of an open gap. */
  predicate ClosesGap(s: Session, covered: Coverage) {
    && !Ignores(s, covered)
    && s.recovery.gapThrough > s.recovery.settledThrough
    && s.recovery.CoverHistory(covered, false).GapIsProven()
  }

  function OnOlderPage(s: Session, covered: Coverage): Session {
    if Ignores(s, covered) then s
    else
      var merged := s.recovery.CoverHistory(covered, false);
      s.(recovery := if ClosesGap(s, covered) then merged.SettleHistoryGap() else merged)
  }

  function OnSnapshot(residents: seq<Session>, i: nat, revision: nat, directory: Directory): Session
    requires i < |residents|
  {
    var s := residents[i];
    if revision <= s.recovery.revision then s
    else
      s.(catalog := directory,
         recovery := s.recovery.(revision := revision).Discover(directory, CapacityFor(residents, s.epoch)))
  }

  // ---- the application ------------------------------------------------

  /** Something that happens to one resident session. */
  datatype Act =
    | Closed
    | Selected
    | Snapshot(revision: nat, directory: Directory)
    | Recovered(seqNo: nat, outcome: TurnOutcome)
    | HistoryRecovered(through: nat, result: HistoryOutcome)
    | UserRetry
    | OlderPage(covered: Coverage)

  datatype Step = Opened(epoch: nat) | Tick(later: Instant) | On(epoch: nat, act: Act)

  /** The step can happen: its session is resident, its read is in flight, time moves forward,
      and a new directory keeps the protocol's promise. */
  ghost predicate Enabled(w: World, step: Step) {
    match step
    case Opened(epoch) => Position(w.residents, epoch) == |w.residents|
    case Tick(later) => w.now <= later
    case On(epoch, act) =>
      var i := Position(w.residents, epoch);
      i < |w.residents| && Allowed(w.residents[i], act)
  }

  ghost predicate Allowed(s: Session, act: Act) {
    match act
    case Snapshot(revision, directory) =>
      revision > s.recovery.revision
      ==> directory.WellFormed() && directory != Unpublished && s.catalog.Precedes(directory)
    case Recovered(k, _) => TurnTask(k) in s.tasks
    case HistoryRecovered(through, _) => HistoryTask(through) in s.tasks
    case _ => true
  }

  /** What the handler of `act` does to the `i`-th resident before the scheduler runs. */
  function HandleAct(residents: seq<Session>, i: nat, act: Act, now: Instant): seq<Session>
    requires i < |residents|
  {
    var s := residents[i];
    match act
    case Closed => residents[..i] + residents[i + 1..]
    case Selected => [s] + residents[..i] + residents[i + 1..]
    case Snapshot(revision, directory) => residents[i := OnSnapshot(residents, i, revision, directory)]
    case Recovered(k, outcome) => residents[i := OnRecovered(s, k, outcome, now)]
    case HistoryRecovered(through, result) => residents[i := OnHistoryRecovered(s, through, result, now)]
    case UserRetry => residents[i := s.(recovery := s.recovery.RetryFailed())]
    case OlderPage(covered) => residents[i := OnOlderPage(s, covered)]
  }

  /** Selecting a session does not run the scheduler, and neither does a snapshot that is not
      newer or an older page that closes no gap. */
  predicate SchedulesAfter(s: Session, act: Act) {
    match act
    case Selected => false
    case Snapshot(revision, _) => s.recovery.revision < revision
    case OlderPage(covered) => ClosesGap(s, covered)
    case _ => true
  }

  function Handle(w: World, step: Step): World {
    match step
    case Opened(epoch) => w.(residents := w.residents + [Session(epoch, Unpublished, Fresh, [])])
    case Tick(later) => w.(now := later)
    case On(epoch, act) =>
      var i := Position(w.residents, epoch);
      if i == |w.residents| then w else w.(residents := HandleAct(w.residents, i, act, w.now))
  }

  predicate Schedules(w: World, step: Step) {
    match step
    case Opened(_) => false
    case Tick(_) => true
    case On(epoch, act) =>
      var i := Position(w.residents, epoch);
      i < |w.residents| && SchedulesAfter(w.residents[i], act)
  }

  function Next(w: World, step: Step): World {
    if Schedules(w, step) then RecoverCompletions(Handle(w, step)) else Handle(w, step)
  }

  const Start := World([], None, 0)
}
