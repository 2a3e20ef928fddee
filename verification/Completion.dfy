/**
 The recovery state of one resident load as a value: which completions of the
 Agent's directory are still unsettled, how far the settled watermark reached, and
 what the saved history proved about completions that left the directory.

 Each function here is one entry point of `RecoveryState`; the class of that name
 computes the same results with mutable fields and loops.
 */
module Completion {
  import opened Wrappers

  const CONCURRENT: nat := 1
  const IDENTITIES_PER_LOAD: nat := 256
  const IDENTITIES_TOTAL: nat := 1024
  const MAX_RETRIES: nat := 3

  /** Milliseconds of a clock that only moves forward. */
  type Instant = nat

  datatype Availability = Live | Stored | NotReadable | Unrecognised

  /** One directory entry; the facts recovery does not branch on are dropped. */
  datatype CompletedTurn = CompletedTurn(seqNo: nat, loopId: string, availability: Availability)

  /** The Agent's completion directory: the retained suffix of everything published so far. */
  datatype Directory = Directory(throughSeq: nat, retainedFrom: nat, entries: seq<CompletedTurn>, truncated: bool)
  {
    /** The promise of the protocol: ascending, no gaps, truncated iff something older was dropped. */
    ghost predicate WellFormed() {
      || this == Unpublished
      || (&& 1 <= retainedFrom
          && retainedFrom + |entries| == throughSeq + 1
          && (forall i | 0 <= i < |entries| :: entries[i].seqNo == retainedFrom + i)
          && (truncated <==> 1 < retainedFrom))
    }

    /** Within one load a later directory never moves either end backwards. */
    ghost predicate Precedes(later: Directory) {
      throughSeq <= later.throughSeq && retainedFrom <= later.retainedFrom
    }
  }

  /** What a session holds before its first snapshot. */
  const Unpublished := Directory(0, 0, [], false)

  datatype Status =
    | Pending
    | Fetching
    | Complete
    | Partial
    | Unavailable
    | Retryable(due: Instant)
    | Exhausted
  {
    predicate IsSettled() {
      Complete? || Partial? || Unavailable?
    }

    /** Whether the scheduler may start a read at `now`. */
    predicate IsReady(now: Instant) {
      Pending? || (Retryable? && due <= now)
    }

    /** Whether automatic recovery may still read this item. */
    predicate IsOpen() {
      Pending? || Fetching? || Retryable?
    }

    predicate HasFailed() {
      Retryable? || Exhausted?
    }
  }

  datatype Recovery = Recovery(turn: CompletedTurn, status: Status, attempts: nat)

  /** A verified range of saved history at one pinned snapshot. */
  datatype Coverage = Coverage(capturedEnd: nat, historyRevision: string, total: nat, from: nat, end: nat)
  {
    predicate SamePin(other: Coverage) {
      capturedEnd == other.capturedEnd && historyRevision == other.historyRevision && total == other.total
    }

    predicate IsComplete() {
      from == 0 && end == total
    }

    predicate Holds(item: nat) {
      from <= item < end
    }
  }

  function Backoff(attempt: nat): nat {
    if attempt == 1 then 250 else if attempt == 2 then 1000 else 4000
  }

  /** The status after one more failed attempt. */
  function AfterFailure(attempts: nat, now: Instant): Status {
    if attempts > MAX_RETRIES then Exhausted else Retryable(now + Backoff(attempts))
  }

  predicate IsLeast(s: set<nat>, m: nat) {
    m in s && forall x | x in s :: m <= x
  }

  /** The smallest element: a `BTreeMap` yields its keys in this order. */
  function Least(s: set<nat>): (m: nat)
    requires s != {}
    ensures m in s && forall x | x in s :: m <= x
  {
    LeastExists(s);
    var m :| IsLeast(s, m);
    m
  }

  lemma LeastExists(s: set<nat>)
    requires s != {}
    ensures exists m :: IsLeast(s, m)
  {
    var x :| x in s;
    if s == {x} {
      assert IsLeast(s, x);
    } else {
      LeastExists(s - {x});
      var m :| IsLeast(s - {x}, m);
      assert s == s - {x} + {x};
      assert IsLeast(s, if x < m then x else m);
    }
  }

  predicate IsGreatest(s: set<nat>, m: nat) {
    m in s && forall x | x in s :: x <= m
  }

  /** The largest element: a reversed `BTreeMap` yields its keys in this order. */
  function Greatest(s: set<nat>): (m: nat)
    requires s != {}
    ensures m in s && forall x | x in s :: x <= m
  {
    GreatestExists(s);
    var m :| IsGreatest(s, m);
    m
  }

  lemma GreatestExists(s: set<nat>)
    requires s != {}
    ensures exists m :: IsGreatest(s, m)
  {
    var x :| x in s;
    if s == {x} {
      assert IsGreatest(s, x);
    } else {
      GreatestExists(s - {x});
      var m :| IsGreatest(s - {x}, m);
      assert s == s - {x} + {x};
      assert IsGreatest(s, if m < x then x else m);
    }
  }

  datatype State = State(
    revision: nat,
    observedThrough: nat,
    settledThrough: nat,
    entries: map<nat, Recovery>,
    truncatedGap: bool,
    behind: bool,
    gapThrough: nat,
    historyStatus: Option<Status>,
    historyCoverage: Option<Coverage>,
    historyAttempts: nat)
  {
    // ---- discovery ----------------------------------------------------

    /** Remembers how far the window moved past completions this client never read. */
    function RaiseGap(d: Directory): State {
      var seen := this.(observedThrough := Max(observedThrough, d.throughSeq));
      if d.truncated && d.retainedFrom > settledThrough + 1 then
        var through := d.retainedFrom - 1;
        if through > gapThrough then
          seen.(truncatedGap := true, gapThrough := through, historyStatus := Some(Pending), historyAttempts := 0)
        else
          seen.(truncatedGap := true)
      else
        seen
    }

    /** Identities whose descriptor left the window and which no read still holds. */
    function Retired(d: Directory): set<nat> {
      set k | k in entries && k < d.retainedFrom && !entries[k].status.Fetching?
    }

    function Prune(d: Directory): State {
      var lost := exists k | k in Retired(d) :: !entries[k].status.IsSettled();
      this.(entries := entries - Retired(d), truncatedGap := truncatedGap || lost)
    }

    /** One directory entry: skipped, refreshed, admitted, or left for later. */
    function AdmitOne(turn: CompletedTurn, capacity: nat): State {
      if turn.seqNo <= settledThrough then
        this
      else if turn.seqNo in entries then
        this.(entries := entries[turn.seqNo := Refreshed(entries[turn.seqNo], turn)])
      else if |entries| < capacity then
        this.(entries := entries[turn.seqNo := Recovery(turn, Pending, 0)])
      else
        this.(behind := true)
    }

    static function Refreshed(known: Recovery, turn: CompletedTurn): Recovery {
      if known.turn.availability != turn.availability then
        Recovery(turn, if known.status.HasFailed() then Pending else known.status, 0)
      else
        known.(turn := turn)
    }

    function Admit(turns: seq<CompletedTurn>, capacity: nat): State {
      if turns == [] then this
      else Admit(turns[..|turns| - 1], capacity).AdmitOne(turns[|turns| - 1], capacity)
    }

    function Discover(d: Directory, limit: nat): State {
      RaiseGap(d).Prune(d).(behind := false)
      .Admit(d.entries, Min(limit, IDENTITIES_PER_LOAD))
      .SettlePrefix()
    }

    // ---- settling -----------------------------------------------------

    /** Advances the watermark over the contiguous settled prefix. */
    function SettlePrefix(): State
      decreases |entries|
    {
      var next := settledThrough + 1;
      if next in entries && entries[next].status.IsSettled() then
        this.(settledThrough := next, entries := entries - {next}).SettlePrefix()
      else
        this
    }

    function Record(k: nat, status: Status): State {
      (if k in entries then this.(entries := entries[k := entries[k].(status := status)]) else this).SettlePrefix()
    }

    /** Identities that may be given up for another load: never attempted. */
    function Unstarted(): set<nat> {
      set k | k in entries && entries[k].status.Pending? && entries[k].attempts == 0
    }

    function DeferUnstarted(): State {
      if Unstarted() == {} then this
      else this.(entries := entries - {Greatest(Unstarted())}, behind := true)
    }

    // ---- history ------------------------------------------------------

    function CoverHistory(covered: Coverage, authoritative: bool): State {
      match historyCoverage
      case Some(known) =>
        if known.SamePin(covered) then
          if known.from == known.end then
            this.(historyCoverage := Some(covered))
          else if covered.from < covered.end && covered.from <= known.end && known.from <= covered.end then
            this.(historyCoverage := Some(known.(from := Min(known.from, covered.from),
                                                 end := Max(known.end, covered.end))))
          else
            this
        else if authoritative then this.(historyCoverage := Some(covered)) else this
      case None =>
        if authoritative then this.(historyCoverage := Some(covered)) else this
    }

    predicate GapIsProven() {
      historyCoverage.Some? && historyCoverage.value.IsComplete()
    }

    function SettleHistoryGap(): State {
      if !GapIsProven() then this
      else this.(settledThrough := Max(settledThrough, gapThrough), historyStatus := Some(Partial)).SettlePrefix()
    }

    // ---- attempts -----------------------------------------------------

    function ReadyKeys(now: Instant): set<nat> {
      set k | k in entries && entries[k].status.IsReady(now)
    }

    /** The oldest completion the scheduler may start. */
    function Ready(now: Instant): Option<CompletedTurn> {
      if ReadyKeys(now) == {} then None else Some(entries[Least(ReadyKeys(now))].turn)
    }

    function RetryLater(k: nat, now: Instant): State {
      if k !in entries then this
      else
        var attempts := entries[k].attempts + 1;
        this.(entries := entries[k := entries[k].(attempts := attempts,
                                                  status := AfterFailure(attempts, now))]).SettlePrefix()
    }

    /** A completion that left the catalog is not worth another attempt. */
    function RetryRetained(k: nat, retainedFrom: nat, now: Instant): State {
      if k < retainedFrom then Record(k, Exhausted) else RetryLater(k, now)
    }

    static function Reopened(entry: Recovery): Recovery {
      if entry.status.HasFailed() then entry.(status := Pending, attempts := 0) else entry
    }

    function RetryFailed(): State {
      var history :=
        if historyStatus.Some? && historyStatus.value.HasFailed() then
          this.(historyAttempts := 0, historyStatus := Some(Pending))
        else this;
      history.(entries := map k | k in entries :: Reopened(entries[k]))
    }

    function RetryHistory(now: Instant): State {
      this.(historyAttempts := historyAttempts + 1, historyStatus := Some(AfterFailure(historyAttempts + 1, now)))
    }

    predicate HistoryDue(now: Instant) {
      historyStatus.Some? && historyStatus.value.IsReady(now)
    }
  }

  /** The state of a load no snapshot reached yet. */
  const Fresh := State(0, 0, 0, map[], false, false, 0, None, None, 0)
}
