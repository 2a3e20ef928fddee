/**
 Why the settled watermark may be where it is, over any run of one load's entry points.

 The run is arbitrary: any directories, any statuses, any order. Whatever happened, each
 sequence the watermark passed was either recorded settled while it was tracked, or lay in
 a catalog gap that was settled when verified windows at one pin covered the whole history.
 */
module RecoveryEvidence {
  import opened Wrappers
  import opened Completion
  import opened CompletionLaws

  datatype Event =
    | Revised(revision: nat)
    | Discovered(directory: Directory, limit: nat)
    | Recorded(key: nat, status: Status)
    | Retried(key: nat, retainedFrom: nat, now: Instant)
    | Deferred
    | Covered(window: Coverage, authoritative: bool)
    | GapSettled
    | Reopened
    | HistoryRetried(now: Instant)
    | HistoryMarked(history: Status)

  function Apply(st: State, event: Event): State {
    match event
    case Revised(revision) => if revision <= st.revision then st else st.(revision := revision)
    case Discovered(directory, limit) => st.Discover(directory, limit)
    case Recorded(key, status) => st.Record(key, status)
    case Retried(key, retainedFrom, now) => st.RetryRetained(key, retainedFrom, now)
    case Deferred => st.DeferUnstarted()
    case Covered(window, authoritative) => st.CoverHistory(window, authoritative)
    case GapSettled => st.SettleHistoryGap()
    case Reopened => st.RetryFailed()
    case HistoryRetried(now) => st.RetryHistory(now)
    case HistoryMarked(history) => st.(historyStatus := Some(history))
  }

  function Run(events: seq<Event>): State {
    if events == [] then Fresh else Apply(Run(events[..|events| - 1]), events[|events| - 1])
  }

  // ---- verified windows -----------------------------------------------

  /** Some window of the run, at the pin of `pin`, holds `item`. */
  ghost predicate Verified(events: seq<Event>, pin: Coverage, item: nat) {
    exists j :: 0 <= j < |events| && events[j].Covered? && events[j].window.SamePin(pin) && events[j].window.Holds(item)
  }

  /** Some window of the run was read at the pin of `pin`. */
  ghost predicate ReadAt(events: seq<Event>, pin: Coverage) {
    exists j :: 0 <= j < |events| && events[j].Covered? && events[j].window.SamePin(pin)
  }

  /** After the run the coverage is `pin`, it is all of its history, and every item of that history
      was in some window verified at the same pin. */
  ghost predicate WholeHistoryVerified(events: seq<Event>, pin: Coverage) {
    && Run(events).historyCoverage == Some(pin) && pin.IsComplete()
    && ReadAt(events, pin)
    && forall item: nat | item < pin.total :: Verified(events, pin, item)
  }

  lemma VerifiedEarlier(events: seq<Event>, n: nat, pin: Coverage, item: nat)
    requires n <= |events| && Verified(events[..n], pin, item)
    ensures Verified(events, pin, item)
  {
    var j :| 0 <= j < n && events[..n][j].Covered? && events[..n][j].window.SamePin(pin)
             && events[..n][j].window.Holds(item);
    assert events[j] == events[..n][j];
  }

  /** Two nonempty ranges with unread items between them. */
  ghost predicate Apart(a: Coverage, b: Coverage) {
    a.from < a.end && b.from < b.end && (b.end < a.from || a.end < b.from)
  }

  /** On one pin, merging is refused exactly when items between the ranges are unread; otherwise
      the result holds exactly the items of both. */
  lemma CoverHistoryIsUnion(st: State, covered: Coverage, authoritative: bool)
    requires st.historyCoverage.Some? && st.historyCoverage.value.SamePin(covered)
    requires st.historyCoverage.value.from <= st.historyCoverage.value.end && covered.from <= covered.end
    ensures var known := st.historyCoverage.value;
            var after := st.CoverHistory(covered, authoritative).historyCoverage;
            && after.Some? && after.value.SamePin(known)
            && (Apart(known, covered) <==>
                  exists item :: (known.Holds(item) || covered.Holds(item)) && !after.value.Holds(item))
            && (Apart(known, covered) ==> after == Some(known))
            && (forall item :: after.value.Holds(item) ==> known.Holds(item) || covered.Holds(item))
  {
    if Apart(st.historyCoverage.value, covered) {
      assert covered.Holds(covered.from) && !st.historyCoverage.value.Holds(covered.from);
    }
  }

  /** Only `CoverHistory` changes the coverage. */
  lemma CoverageFrame(st: State, event: Event)
    requires !event.Covered?
    ensures Apply(st, event).historyCoverage == st.historyCoverage
  {
    match event
    case Discovered(directory, limit) =>
      var pruned := st.RaiseGap(directory).Prune(directory).(behind := false);
      AdmitSettles(pruned, directory.entries, Min(limit, IDENTITIES_PER_LOAD));
      SettlePrefixRuns(pruned.Admit(directory.entries, Min(limit, IDENTITIES_PER_LOAD)));
    case Recorded(key, status) =>
      SettlePrefixRuns(if key in st.entries then st.(entries := st.entries[key := st.entries[key].(status := status)])
                       else st);
    case Retried(key, retainedFrom, now) =>
      RetriedSettles(st, key, retainedFrom, now);
    case GapSettled =>
      SettlePrefixRuns(st.(settledThrough := Max(st.settledThrough, st.gapThrough), historyStatus := Some(Partial)));
    case _ =>
  }

  /** Every item the coverage holds was in a window verified at the coverage's own pin. */
  lemma {:induction false} CoverageIsVerified(events: seq<Event>, item: nat)
    requires Run(events).historyCoverage.Some? && Run(events).historyCoverage.value.Holds(item)
    ensures Verified(events, Run(events).historyCoverage.value, item)
  {
    if events != [] {
      var n := |events| - 1;
      var before := Run(events[..n]);
      var event := events[n];
      if !event.Covered? {
        CoverageFrame(before, event);
      }
      var after := Run(events).historyCoverage.value;
      if event.Covered? && event.window.SamePin(after) && event.window.Holds(item) {
      } else {
        CoverageIsVerified(events[..n], item);
        VerifiedEarlier(events, n, before.historyCoverage.value, item);
      }
    }
  }

  /** The coverage's pin is one some window was read at, also when its history is empty. */
  lemma {:induction false} CoverageIsRead(events: seq<Event>)
    requires Run(events).historyCoverage.Some?
    ensures ReadAt(events, Run(events).historyCoverage.value)
  {
    if events != [] {
      var n := |events| - 1;
      var before := Run(events[..n]);
      if !events[n].Covered? {
        CoverageFrame(before, events[n]);
      }
      var after := Run(events).historyCoverage.value;
      if !(events[n].Covered? && events[n].window.SamePin(after)) {
        CoverageIsRead(events[..n]);
        var j :| 0 <= j < n && events[..n][j].Covered? && events[..n][j].window.SamePin(before.historyCoverage.value);
        assert events[j] == events[..n][j];
      }
    }
  }

  /** A gap is only ever settled on a coverage whose whole history was verified at its own pin. */
  lemma ProvenGapIsVerified(events: seq<Event>)
    requires Run(events).GapIsProven()
    ensures WholeHistoryVerified(events, Run(events).historyCoverage.value)
  {
    var pin := Run(events).historyCoverage.value;
    CoverageIsRead(events);
    forall item: nat | item < pin.total
      ensures Verified(events, pin, item)
    {
      CoverageIsVerified(events, item);
    }
  }

  // ---- the watermark --------------------------------------------------

  /** The state claims that `k` needs no further read. */
  ghost predicate Claimed(st: State, k: nat) {
    1 <= k <= st.settledThrough || (k in st.entries && st.entries[k].status.IsSettled())
  }

  /** The event that justified the claim: a settled status of `k` itself, or the settling of a gap
      over `k` while the coverage held a whole history verified at one pin. */
  ghost predicate Evidence(events: seq<Event>, i: nat, k: nat)
    requires i < |events|
  {
    var st := Run(events[..i]);
    || (events[i].Recorded? && events[i].key == k && k in st.entries && events[i].status.IsSettled())
    || (&& events[i].GapSettled? && k <= st.gapThrough && st.GapIsProven()
        && WholeHistoryVerified(events[..i], st.historyCoverage.value))
  }

  lemma {:induction false} AdmitSettles(st: State, turns: seq<CompletedTurn>, capacity: nat)
    ensures var after := st.Admit(turns, capacity);
            && after == st.(entries := after.entries, behind := after.behind)
            && forall k :: Claimed(after, k) ==> Claimed(st, k)
  {
    if turns != [] {
      AdmitSettles(st, turns[..|turns| - 1], capacity);
    }
  }

  lemma SettlePrefixClaims(st: State, k: nat)
    requires Claimed(st.SettlePrefix(), k)
    ensures Claimed(st, k)
  {
    SettlePrefixRuns(st);
  }

  lemma RetriedSettles(st: State, key: nat, retainedFrom: nat, now: Instant)
    ensures var after := st.RetryRetained(key, retainedFrom, now);
            && after.historyCoverage == st.historyCoverage
            && forall k :: Claimed(after, k) ==> Claimed(st, k)
  {
    var updated := if key !in st.entries then st
                   else if key < retainedFrom then
                     st.(entries := st.entries[key := st.entries[key].(status := Exhausted)])
                   else st.(entries := st.entries[key := st.entries[key].(
                                         attempts := st.entries[key].attempts + 1,
                                         status := AfterFailure(st.entries[key].attempts + 1, now))]);
    SettlePrefixRuns(updated);
    assert forall k :: Claimed(updated, k) ==> Claimed(st, k);
    forall k | Claimed(updated.SettlePrefix(), k)
      ensures Claimed(st, k)
    {
      SettlePrefixClaims(updated, k);
    }
  }

  /** One event claims nothing new without its own evidence. */
  lemma ApplyClaims(st: State, event: Event, k: nat)
    requires Claimed(Apply(st, event), k)
    requires !Claimed(st, k)
    ensures || (event.Recorded? && event.key == k && k in st.entries && event.status.IsSettled())
            || (event.GapSettled? && k <= st.gapThrough && st.GapIsProven())
  {
    match event
    case Discovered(directory, limit) =>
      var pruned := st.RaiseGap(directory).Prune(directory).(behind := false);
      AdmitSettles(pruned, directory.entries, Min(limit, IDENTITIES_PER_LOAD));
      SettlePrefixClaims(pruned.Admit(directory.entries, Min(limit, IDENTITIES_PER_LOAD)), k);
    case Recorded(key, status) =>
      SettlePrefixClaims(if key in st.entries then st.(entries := st.entries[key := st.entries[key].(status := status)])
                         else st, k);
    case Retried(key, retainedFrom, now) =>
      RetriedSettles(st, key, retainedFrom, now);
    case GapSettled =>
      if st.GapIsProven() {
        SettlePrefixClaims(st.(settledThrough := Max(st.settledThrough, st.gapThrough), historyStatus := Some(Partial)),
                           k);
      }
    case _ =>
  }

  /** The watermark moves only on evidence. */
  lemma {:induction false} WatermarkMovesOnEvidence(events: seq<Event>, k: nat)
    requires Claimed(Run(events), k)
    ensures exists i :: 0 <= i < |events| && Evidence(events, i, k)
  {
    if events != [] {
      var n := |events| - 1;
      if Claimed(Run(events[..n]), k) {
        WatermarkMovesOnEvidence(events[..n], k);
        var i :| 0 <= i < n && Evidence(events[..n], i, k);
        assert events[..n][..i] == events[..i];
        assert Evidence(events, i, k);
      } else {
        ApplyClaims(Run(events[..n]), events[n], k);
        if Run(events[..n]).GapIsProven() {
          ProvenGapIsVerified(events[..n]);
        }
        assert Evidence(events, n, k);
      }
    }
  }
}
