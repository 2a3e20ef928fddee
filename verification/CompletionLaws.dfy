/**
 What every entry point of one load's recovery state keeps.

 `Sound` relates the state to the last directory applied: no published completion
 is lost, retry budgets are respected, and an unproven catalog gap always has a
 history read pending, running or explicitly failed.
 */
module CompletionLaws {
  import opened Wrappers
  import opened Completion

  // ---- the invariant --------------------------------------------------

  ghost predicate Known(entry: Recovery, settledThrough: nat, d: Directory, k: nat) {
    && 1 <= k <= d.throughSeq
    && entry.turn.seqNo == k
    && (settledThrough < k || k < d.retainedFrom)
  }

  /** Every tracked identity is a published one the watermark has not passed. */
  ghost predicate KeysKnown(st: State, d: Directory) {
    forall k | k in st.entries :: Known(st.entries[k], st.settledThrough, d, k)
  }

  ghost predicate WithinBudget(entry: Recovery) {
    && entry.attempts <= MAX_RETRIES + 1
    && (entry.status.IsOpen() ==> entry.attempts <= MAX_RETRIES)
  }

  ghost predicate BudgetsHeld(st: State) {
    && (forall k | k in st.entries :: WithinBudget(st.entries[k]))
    && (st.historyStatus.None? ==> st.historyAttempts == 0)
    && (st.historyStatus.Some? && st.historyStatus.value.IsOpen() ==> st.historyAttempts <= MAX_RETRIES)
  }

  /** Where the sequence `k` is accounted for. */
  ghost predicate Accounted(st: State, k: nat) {
    k <= st.settledThrough || k in st.entries || k <= st.gapThrough
  }

  /** The first `upTo` retained entries are tracked with the directory's own description,
      and none of them is skipped unless the load knows it is behind. */
  ghost predicate Described(st: State, d: Directory, upTo: nat)
    requires upTo <= |d.entries|
  {
    forall i | 0 <= i < upTo ::
      if d.entries[i].seqNo in st.entries then st.entries[d.entries[i].seqNo].turn == d.entries[i]
      else st.behind || d.entries[i].seqNo <= st.settledThrough
  }

  ghost predicate GapGuarded(st: State, d: Directory) {
    && (st.gapThrough == 0 || st.gapThrough < d.retainedFrom)
    && d.retainedFrom <= Max(st.settledThrough, st.gapThrough) + 1
    && (st.settledThrough < st.gapThrough ==> st.historyStatus.Some? && !st.historyStatus.value.Partial?)
  }

  /** Everything but the description of the retained entries. */
  ghost predicate Anchored(st: State, d: Directory) {
    && d.WellFormed()
    && st.observedThrough == d.throughSeq
    && st.settledThrough <= d.throughSeq
    && KeysKnown(st, d)
    && GapGuarded(st, d)
    && BudgetsHeld(st)
  }

  ghost predicate Sound(st: State, d: Directory) {
    Anchored(st, d) && Described(st, d, |d.entries|)
  }

  /** No published completion is silently dropped. */
  lemma NothingIsLost(st: State, d: Directory, k: nat)
    requires Sound(st, d) && 1 <= k <= st.observedThrough
    ensures Accounted(st, k) || (st.behind && exists i :: 0 <= i < |d.entries| && d.entries[i].seqNo == k)
  {
    if d.retainedFrom <= k {
      assert d.entries[k - d.retainedFrom].seqNo == k;
    }
  }

  // ---- settling -------------------------------------------------------

  /** The entries not in `(low..high]`. */
  ghost function Outside(entries: map<nat, Recovery>, low: nat, high: nat): map<nat, Recovery> {
    map k | k in entries && !(low < k <= high) :: entries[k]
  }

  lemma OutsideNext(entries: map<nat, Recovery>, low: nat, high: nat)
    requires low < high
    ensures Outside(entries - {low + 1}, low + 1, high) == Outside(entries, low, high)
  {
  }

  /** `SettlePrefix` removes exactly the longest settled run above the watermark. */
  lemma {:induction false} SettlePrefixRuns(st: State)
    ensures var n := st.SettlePrefix().settledThrough;
            && st.settledThrough <= n
            && (forall k | st.settledThrough < k <= n :: k in st.entries && st.entries[k].status.IsSettled())
            && !(n + 1 in st.entries && st.entries[n + 1].status.IsSettled())
            && st.SettlePrefix() == st.(settledThrough := n, entries := Outside(st.entries, st.settledThrough, n))
    decreases |st.entries|
  {
    var next := st.settledThrough + 1;
    if next in st.entries && st.entries[next].status.IsSettled() {
      var moved := st.(settledThrough := next, entries := st.entries - {next});
      SettlePrefixRuns(moved);
      var n := moved.SettlePrefix().settledThrough;
      forall k | st.settledThrough < k <= n
        ensures k in st.entries && st.entries[k].status.IsSettled()
      {
        assert k == next || (k in moved.entries && moved.entries[k].status.IsSettled());
      }
      OutsideNext(st.entries, st.settledThrough, n);
    } else {
      assert Outside(st.entries, st.settledThrough, st.settledThrough) == st.entries;
    }
  }

  /** Settling forgets only settled identities and changes none that stay. */
  lemma SettlePrefixFrame(st: State)
    ensures var after := st.SettlePrefix();
            && after.entries.Keys <= st.entries.Keys
            && |after.entries| <= |st.entries|
            && (forall k | k in st.entries && !st.entries[k].status.IsSettled() :: k in after.entries)
            && (forall k | k in after.entries :: after.entries[k] == st.entries[k])
  {
    SettlePrefixRuns(st);
    SubsetSize(st.SettlePrefix().entries.Keys, st.entries.Keys);
    assert |st.entries| == |st.entries.Keys| && |st.SettlePrefix().entries| == |st.SettlePrefix().entries.Keys|;
  }

  lemma SettlePrefixAnchored(st: State, d: Directory)
    requires Anchored(st, d)
    ensures Anchored(st.SettlePrefix(), d)
  {
    SettlePrefixRuns(st);
    var n := st.SettlePrefix().settledThrough;
    assert st.settledThrough < n ==> n in st.entries;
  }

  lemma SettlePrefixDescribed(st: State, d: Directory)
    requires Described(st, d, |d.entries|)
    ensures Described(st.SettlePrefix(), d, |d.entries|)
  {
    SettlePrefixRuns(st);
  }

  lemma SubsetSize<T>(a: set<T>, b: set<T>)
    requires a <= b
    ensures |a| <= |b|
  {
    assert |b| == |a| + |b - a| by { assert b == a + (b - a); }
  }

  // ---- discovery ------------------------------------------------------

  lemma RaiseGapKeeps(st: State, before: Directory, d: Directory)
    requires Anchored(st, before) && d.WellFormed() && before.Precedes(d)
    ensures var raised := st.RaiseGap(d);
            && raised.observedThrough == d.throughSeq
            && GapGuarded(raised, d) && BudgetsHeld(raised)
            && raised.settledThrough == st.settledThrough && raised.entries == st.entries
  {
  }

  /** Pruning drops what left the window, except what a read still holds. */
  lemma PruneKeeps(st: State, before: Directory, d: Directory)
    requires Anchored(st, before) && d.WellFormed() && before.Precedes(d)
    ensures var pruned := st.RaiseGap(d).Prune(d).(behind := false);
            && Anchored(pruned, d) && Described(pruned, d, 0)
            && (forall k | k in pruned.entries && k < d.retainedFrom :: pruned.entries[k].status.Fetching?)
            && (forall k | k in st.entries && st.entries[k].status.Fetching? :: k in pruned.entries)
            && pruned.entries.Keys <= st.entries.Keys
  {
    RaiseGapKeeps(st, before, d);
  }

  lemma AdmitOneAt(st: State, d: Directory, i: nat, capacity: nat, k: nat)
    requires Anchored(st, d) && i < |d.entries|
    requires k in st.AdmitOne(d.entries[i], capacity).entries
    ensures Known(st.AdmitOne(d.entries[i], capacity).entries[k], st.settledThrough, d, k)
    ensures WithinBudget(st.AdmitOne(d.entries[i], capacity).entries[k])
  {
    if k in st.entries {
      assert Known(st.entries[k], st.settledThrough, d, k) && WithinBudget(st.entries[k]);
    }
    hide Described;
    hide GapGuarded;
    hide KeysKnown;
    hide BudgetsHeld;
  }

  lemma AdmitOneAnchored(st: State, d: Directory, i: nat, capacity: nat)
    requires Anchored(st, d) && i < |d.entries|
    ensures Anchored(st.AdmitOne(d.entries[i], capacity), d)
  {
    forall k | k in st.AdmitOne(d.entries[i], capacity).entries
      ensures Known(st.AdmitOne(d.entries[i], capacity).entries[k], st.settledThrough, d, k)
      ensures WithinBudget(st.AdmitOne(d.entries[i], capacity).entries[k])
    {
      AdmitOneAt(st, d, i, capacity, k);
    }
  }

  lemma AdmitOneDescribed(st: State, d: Directory, i: nat, capacity: nat)
    requires d.WellFormed() && KeysKnown(st, d) && i < |d.entries| && Described(st, d, i)
    ensures Described(st.AdmitOne(d.entries[i], capacity), d, i + 1)
  {
    forall j | 0 <= j < i
      ensures d.entries[j].seqNo != d.entries[i].seqNo
    {
    }
  }

  /** What admission leaves alone: older identities, reads in flight, the capacity. */
  ghost predicate AdmissionFrame(st: State, after: State, d: Directory, capacity: nat) {
    && after == st.(entries := after.entries, behind := after.behind)
    && |after.entries| <= Max(|st.entries|, capacity)
    && (forall k | k in st.entries :: k in after.entries)
    && (forall k | k in after.entries && k < d.retainedFrom :: k in st.entries && after.entries[k] == st.entries[k])
    && (forall k | k in after.entries && after.entries[k].status.Fetching? ::
          k in st.entries && st.entries[k].status.Fetching?)
    && (forall k | k in st.entries && st.entries[k].status.Fetching? :: after.entries[k].status.Fetching?)
  }

  lemma AdmitOneFrame(st: State, d: Directory, i: nat, capacity: nat)
    requires d.WellFormed() && i < |d.entries|
    ensures AdmissionFrame(st, st.AdmitOne(d.entries[i], capacity), d, capacity)
  {
    var turn := d.entries[i];
    assert turn.seqNo == d.retainedFrom + i;
  }

  lemma {:induction false} AdmitAnchored(st: State, d: Directory, n: nat, capacity: nat)
    requires Anchored(st, d) && n <= |d.entries|
    ensures Anchored(st.Admit(d.entries[..n], capacity), d)
  {
    if n != 0 {
      AdmitAnchored(st, d, n - 1, capacity);
      assert d.entries[..n][..n - 1] == d.entries[..n - 1];
      AdmitOneAnchored(st.Admit(d.entries[..n - 1], capacity), d, n - 1, capacity);
    }
  }

  lemma {:induction false} AdmitDescribed(st: State, d: Directory, n: nat, capacity: nat)
    requires Anchored(st, d) && n <= |d.entries|
    ensures Described(st.Admit(d.entries[..n], capacity), d, n)
  {
    if n != 0 {
      AdmitDescribed(st, d, n - 1, capacity);
      AdmitAnchored(st, d, n - 1, capacity);
      assert d.entries[..n][..n - 1] == d.entries[..n - 1];
      AdmitOneDescribed(st.Admit(d.entries[..n - 1], capacity), d, n - 1, capacity);
    }
  }

  lemma {:induction false} AdmitFrame(st: State, d: Directory, n: nat, capacity: nat)
    requires d.WellFormed() && n <= |d.entries|
    ensures AdmissionFrame(st, st.Admit(d.entries[..n], capacity), d, capacity)
  {
    if n != 0 {
      AdmitFrame(st, d, n - 1, capacity);
      assert d.entries[..n][..n - 1] == d.entries[..n - 1];
      AdmitOneFrame(st.Admit(d.entries[..n - 1], capacity), d, n - 1, capacity);
    }
  }

  /** Applying a directory, new or current, keeps every completion accounted for. */
  lemma DiscoverKeeps(st: State, before: Directory, d: Directory, limit: nat)
    requires Anchored(st, before) && d.WellFormed() && before.Precedes(d)
    ensures Sound(st.Discover(d, limit), d)
  {
    var pruned := st.RaiseGap(d).Prune(d).(behind := false);
    var capacity := Min(limit, IDENTITIES_PER_LOAD);
    PruneKeeps(st, before, d);
    AdmitAnchored(pruned, d, |d.entries|, capacity);
    AdmitDescribed(pruned, d, |d.entries|, capacity);
    assert d.entries[..|d.entries|] == d.entries;
    var admitted := pruned.Admit(d.entries, capacity);
    SettlePrefixAnchored(admitted, d);
    SettlePrefixDescribed(admitted, d);
  }

  // ---- the other entry points -----------------------------------------

  /** A new status for one identity, counted against its own budget. */
  lemma UpdateKeeps(st: State, d: Directory, k: nat, entry: Recovery)
    requires Sound(st, d) && k in st.entries && entry.turn == st.entries[k].turn && WithinBudget(entry)
    ensures Sound(st.(entries := st.entries[k := entry]), d)
    ensures Sound(st.(entries := st.entries[k := entry]).SettlePrefix(), d)
  {
    var updated := st.(entries := st.entries[k := entry]);
    assert Sound(updated, d);
    SettlePrefixAnchored(updated, d);
    SettlePrefixDescribed(updated, d);
  }

  lemma RecordKeeps(st: State, d: Directory, k: nat, status: Status)
    requires Sound(st, d)
    requires k in st.entries && status.IsOpen() ==> st.entries[k].attempts <= MAX_RETRIES
    ensures Sound(st.Record(k, status), d)
  {
    if k in st.entries {
      UpdateKeeps(st, d, k, st.entries[k].(status := status));
    } else {
      SettlePrefixAnchored(st, d);
      SettlePrefixDescribed(st, d);
    }
  }

  lemma RetryRetainedKeeps(st: State, d: Directory, k: nat, retainedFrom: nat, now: Instant)
    requires Sound(st, d)
    requires k in st.entries ==> st.entries[k].attempts <= MAX_RETRIES
    ensures Sound(st.RetryRetained(k, retainedFrom, now), d)
  {
    if k < retainedFrom {
      RecordKeeps(st, d, k, Exhausted);
    } else if k in st.entries {
      var attempts := st.entries[k].attempts + 1;
      UpdateKeeps(st, d, k, st.entries[k].(attempts := attempts, status := AfterFailure(attempts, now)));
    }
  }

  /** Deferral gives up an identity that a later discovery finds again, or that the gap covers. */
  lemma DeferKeeps(st: State, d: Directory)
    requires Sound(st, d)
    ensures Sound(st.DeferUnstarted(), d)
  {
    if st.Unstarted() != {} {
      var k := Greatest(st.Unstarted());
      forall i | 0 <= i < |d.entries|
        ensures d.entries[i].seqNo in (st.entries - {k}) ==> st.entries[d.entries[i].seqNo].turn == d.entries[i]
      {
      }
    }
  }

  lemma RetryFailedKeeps(st: State, d: Directory)
    requires Sound(st, d)
    ensures Sound(st.RetryFailed(), d)
  {
    assert st.RetryFailed().entries.Keys == st.entries.Keys;
  }

  lemma SettleHistoryGapKeeps(st: State, d: Directory)
    requires Sound(st, d)
    ensures Sound(st.SettleHistoryGap(), d)
  {
    if st.GapIsProven() {
      var settled := st.(settledThrough := Max(st.settledThrough, st.gapThrough), historyStatus := Some(Partial));
      assert Described(settled, d, |d.entries|);
      SettlePrefixAnchored(settled, d);
      SettlePrefixDescribed(settled, d);
    }
  }

  lemma MergeKeeps(st: State, d: Directory, covered: Coverage, authoritative: bool)
    requires Sound(st, d)
    ensures Sound(st.CoverHistory(covered, authoritative), d)
    ensures var after := st.CoverHistory(covered, authoritative);
            after == st.(historyCoverage := after.historyCoverage)
  {
    var after := st.CoverHistory(covered, authoritative);
    assert after == st.(historyCoverage := after.historyCoverage);
    assert Described(after, d, |d.entries|);
  }

  lemma MarkHistoryKeeps(st: State, d: Directory, status: Status)
    requires Sound(st, d) && !status.Partial? && (status.IsOpen() ==> st.historyAttempts <= MAX_RETRIES)
    ensures Sound(st.(historyStatus := Some(status)), d)
  {
    assert Described(st.(historyStatus := Some(status)), d, |d.entries|);
  }
}
