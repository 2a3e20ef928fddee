/** The mutable recovery state of one resident load, with the loops that update it. */
module RecoveryStates {
  import opened Wrappers
  import opened Completion
  import CompletionLaws

  /** Every failed item but those of `rest` was opened again. */
  ghost predicate ReopenedBut(entries: map<nat, Recovery>, was: map<nat, Recovery>, rest: set<nat>) {
    && rest <= entries.Keys && entries.Keys == was.Keys
    && forall k | k in was :: entries[k] == if k in rest then was[k] else State.Reopened(was[k])
  }

  lemma ReopenedOne(entries: map<nat, Recovery>, was: map<nat, Recovery>, rest: set<nat>, k: nat)
    requires ReopenedBut(entries, was, rest) && k in rest
    ensures ReopenedBut(entries[k := State.Reopened(entries[k])], was, rest - {k})
    ensures entries[k := entries[k]] == entries
  {
  }

  class RecoveryState {
    var revision: nat
    var observedThrough: nat
    var settledThrough: nat
    var entries: map<nat, Recovery>
    var truncatedGap: bool
    var behind: bool
    var gapThrough: nat
    var historyStatus: Option<Status>
    var historyCoverage: Option<Coverage>
    var historyAttempts: nat

    /** The state as a value. */
    ghost function View(): State
      reads this
    {
      State(revision, observedThrough, settledThrough, entries, truncatedGap, behind, gapThrough,
            historyStatus, historyCoverage, historyAttempts)
    }

    constructor ()
      ensures View() == Fresh
    {
      revision, observedThrough, settledThrough, entries := 0, 0, 0, map[];
      truncatedGap, behind, gapThrough := false, false, 0;
      historyStatus, historyCoverage, historyAttempts := None, None, 0;
    }

    method AcceptRevision(newer: nat) returns (accepted: bool)
      modifies this
      ensures accepted <==> old(revision) < newer
      ensures View() == if accepted then old(View()).(revision := newer) else old(View())
    {
      if newer <= revision {
        return false;
      }
      revision := newer;
      return true;
    }

    method Discover(directory: Directory, limit: nat)
      modifies this
      ensures View() == old(View()).Discover(directory, limit)
    {
      RaiseGap(directory);
      DropRetired(directory);
      behind := false;
      AdmitEntries(directory.entries, Min(limit, IDENTITIES_PER_LOAD));
      SettlePrefix();
    }

    method RaiseGap(directory: Directory)
      modifies `observedThrough, `truncatedGap, `gapThrough, `historyStatus, `historyAttempts
      ensures View() == old(View()).RaiseGap(directory)
    {
      observedThrough := Max(observedThrough, directory.throughSeq);
      if directory.truncated && directory.retainedFrom > settledThrough + 1 {
        truncatedGap := true;
        var through := directory.retainedFrom - 1;
        if through > gapThrough {
          gapThrough := through;
          historyStatus := Some(Pending);
          historyAttempts := 0;
        }
      }
    }

    /** Walks the directory: known identities are refreshed, new ones admitted while there is room. */
    method AdmitEntries(turns: seq<CompletedTurn>, capacity: nat)
      modifies `entries, `behind
      ensures View() == old(View()).Admit(turns, capacity)
    {
      var i := 0;
      assert turns[..0] == [];
      while i < |turns|
        invariant 0 <= i <= |turns|
        invariant View() == old(View()).Admit(turns[..i], capacity)
      {
        var turn := turns[i];
        assert turns[..i + 1][..i] == turns[..i];
        i := i + 1;
        if turn.seqNo <= settledThrough {
          continue;
        }
        var canAdmit := |entries| < capacity;
        if turn.seqNo in entries {
          var known := entries[turn.seqNo];
          if known.turn.availability != turn.availability {
            known := known.(attempts := 0);
            if known.status.HasFailed() {
              known := known.(status := Pending);
            }
          }
          entries := entries[turn.seqNo := known.(turn := turn)];
        } else if canAdmit {
          entries := entries[turn.seqNo := Recovery(turn, Pending, 0)];
        } else {
          behind := true;
        }
      }
      assert turns[..i] == turns;
    }

    /** Removes, one by one, what the window no longer lists and no read holds. */
    method DropRetired(directory: Directory)
      modifies `entries, `truncatedGap
      ensures View() == old(View()).Prune(directory)
    {
      var dropped := set k | k in entries && k < directory.retainedFrom && !entries[k].status.Fetching?;
      assert dropped == View().Retired(directory);
      var lost := false;
      var rest := dropped;
      while rest != {}
        invariant rest <= dropped
        invariant entries == old(entries) - (dropped - rest)
        invariant lost <==> exists k | k in dropped - rest :: !old(entries)[k].status.IsSettled()
        decreases |rest|
        modifies `entries
      {
        var k := Least(rest);
        if !entries[k].status.IsSettled() {
          lost := true;
        }
        entries := entries - {k};
        rest := rest - {k};
      }
      assert dropped - rest == dropped;
      if lost {
        truncatedGap := true;
      }
    }

    method SettlePrefix()
      modifies `settledThrough, `entries
      ensures View() == old(View()).SettlePrefix()
    {
      while settledThrough + 1 in entries && entries[settledThrough + 1].status.IsSettled()
        invariant View().SettlePrefix() == old(View()).SettlePrefix()
        invariant View() == old(View()).(settledThrough := settledThrough, entries := entries)
        decreases |entries|
      {
        settledThrough := settledThrough + 1;
        entries := entries - {settledThrough};
      }
    }

    method Record(key: nat, status: Status)
      modifies `settledThrough, `entries
      ensures View() == old(View()).Record(key, status)
    {
      if key in entries {
        entries := entries[key := entries[key].(status := status)];
      }
      SettlePrefix();
    }

    /** Gives up the newest identity no read was ever started for. */
    method DeferUnstarted() returns (deferred: bool)
      modifies `entries, `behind
      ensures deferred <==> old(View()).Unstarted() != {}
      ensures View() == old(View()).DeferUnstarted()
    {
      var rest := entries.Keys;
      while rest != {}
        invariant rest <= entries.Keys
        invariant forall k | k in entries && k !in rest :: k !in View().Unstarted()
        decreases |rest|
      {
        var k := Greatest(rest);
        if entries[k].status.Pending? && entries[k].attempts == 0 {
          assert k in View().Unstarted();
          assert k == Greatest(View().Unstarted());
          entries := entries - {k};
          behind := true;
          return true;
        }
        rest := rest - {k};
      }
      return false;
    }

    method CoverHistory(covered: Coverage, authoritative: bool)
      modifies `historyCoverage
      ensures View() == old(View()).CoverHistory(covered, authoritative)
    {
      if historyCoverage.Some? && historyCoverage.value.SamePin(covered) {
        var known := historyCoverage.value;
        if known.from == known.end {
          historyCoverage := Some(covered);
        } else if covered.from < covered.end && covered.from <= known.end && known.from <= covered.end {
          historyCoverage := Some(known.(from := Min(known.from, covered.from), end := Max(known.end, covered.end)));
        }
      } else if authoritative {
        historyCoverage := Some(covered);
      }
    }

    method SettleHistoryGap() returns (settled: bool)
      modifies `settledThrough, `historyStatus, `entries
      ensures settled <==> old(View()).GapIsProven()
      ensures View() == old(View()).SettleHistoryGap()
    {
      if historyCoverage.None? || !historyCoverage.value.IsComplete() {
        return false;
      }
      settledThrough := Max(settledThrough, gapThrough);
      historyStatus := Some(Partial);
      SettlePrefix();
      return true;
    }

    /** The oldest identity a read may be started for. */
    method Ready(now: Instant) returns (turn: Option<CompletedTurn>)
      ensures turn == View().Ready(now)
    {
      var rest := entries.Keys;
      while rest != {}
        invariant rest <= entries.Keys
        invariant forall k | k in entries && k !in rest :: k !in View().ReadyKeys(now)
        decreases |rest|
      {
        var k := Least(rest);
        if entries[k].status.IsReady(now) {
          assert k in View().ReadyKeys(now);
          assert k == Least(View().ReadyKeys(now));
          return Some(entries[k].turn);
        }
        rest := rest - {k};
      }
      return None;
    }

    /** The earliest moment a waiting retry becomes ready. */
    method NextDeadline() returns (deadline: Option<Instant>)
      ensures deadline.None? ==> historyStatus.None? || !historyStatus.value.Retryable?
      ensures deadline.None? ==> forall k | k in entries :: !entries[k].status.Retryable?
      ensures deadline.Some? ==>
                forall k | k in entries && entries[k].status.Retryable? :: deadline.value <= entries[k].status.due
      ensures deadline.Some? && historyStatus.Some? && historyStatus.value.Retryable? ==>
                deadline.value <= historyStatus.value.due
      ensures deadline.Some? ==>
                || (historyStatus.Some? && historyStatus.value == Retryable(deadline.value))
                || exists k :: k in entries && entries[k].status == Retryable(deadline.value)
    {
      deadline := None;
      var rest := entries.Keys;
      while rest != {}
        invariant rest <= entries.Keys
        invariant deadline.None? ==> forall k | k in entries && k !in rest :: !entries[k].status.Retryable?
        invariant deadline.Some? ==> forall k | k in entries && k !in rest && entries[k].status.Retryable? ::
                    deadline.value <= entries[k].status.due
        invariant deadline.Some? ==> exists k :: k in entries && entries[k].status == Retryable(deadline.value)
        decreases |rest|
      {
        var k := Least(rest);
        var status := entries[k].status;
        if status.Retryable? && (deadline.None? || status.due < deadline.value) {
          deadline := Some(status.due);
        }
        rest := rest - {k};
      }
      if historyStatus.Some? && historyStatus.value.Retryable?
         && (deadline.None? || historyStatus.value.due < deadline.value) {
        deadline := Some(historyStatus.value.due);
      }
    }

    method RetryLater(key: nat, now: Instant) returns (status: Option<Status>)
      modifies `settledThrough, `entries
      ensures View() == old(View()).RetryLater(key, now)
      ensures status == if key in old(entries) then Some(AfterFailure(old(entries)[key].attempts + 1, now)) else None
    {
      if key !in entries {
        return None;
      }
      var attempts := entries[key].attempts + 1;
      var next := if attempts > MAX_RETRIES then Exhausted else Retryable(now + Backoff(attempts));
      entries := entries[key := entries[key].(attempts := attempts, status := next)];
      SettlePrefix();
      return Some(next);
    }

    method RetryRetained(key: nat, retainedFrom: nat, now: Instant) returns (status: Option<Status>)
      modifies `settledThrough, `entries
      ensures View() == old(View()).RetryRetained(key, retainedFrom, now)
      ensures status.Some? && status.value.Exhausted? <==>
                key < retainedFrom || (key in old(entries) && old(entries)[key].attempts >= MAX_RETRIES)
    {
      if key < retainedFrom {
        Record(key, Exhausted);
        return Some(Exhausted);
      }
      status := RetryLater(key, now);
    }

    method ReopenEntries()
      modifies `entries
      ensures ReopenedBut(entries, old(entries), {})
    {
      var rest := entries.Keys;
      while rest != {}
        invariant ReopenedBut(entries, old(entries), rest)
        decreases |rest|
        modifies `entries
      {
        var k := Least(rest);
        ReopenedOne(entries, old(entries), rest, k);
        if entries[k].status.HasFailed() {
          entries := entries[k := entries[k].(status := Pending, attempts := 0)];
        }
        rest := rest - {k};
      }
    }

    /** Opens one new round of retries for every failed item. */
    method RetryFailed()
      modifies `historyAttempts, `historyStatus, `entries
      ensures View() == old(View()).RetryFailed()
    {
      if historyStatus.Some? && historyStatus.value.HasFailed() {
        historyAttempts := 0;
        historyStatus := Some(Pending);
      }
      ReopenEntries();
      assert entries == old(View()).RetryFailed().entries;
    }

    method RetryHistory(now: Instant)
      modifies `historyAttempts, `historyStatus
      ensures View() == old(View()).RetryHistory(now)
    {
      historyAttempts := historyAttempts + 1;
      historyStatus := Some(if historyAttempts > MAX_RETRIES then Exhausted
                            else Retryable(now + Backoff(historyAttempts)));
    }
  }
}
