/**
 What applying a directory does to each completion, told by the directory and the state before alone.
 */
module DiscoveryLaws {
  import opened Wrappers
  import opened Completion
  import opened CompletionLaws

  /** What the directory says of the sequence `k`, if it still has it. */
  function DescriptorOf(d: Directory, k: nat): Option<CompletedTurn> {
    if d.retainedFrom <= k < d.retainedFrom + |d.entries| then Some(d.entries[k - d.retainedFrom]) else None
  }

  /** The entry of a completion that is described anew: with a changed availability its attempts are
      forgotten and a failure is forgiven; otherwise both stand. */
  ghost predicate IsDescribed(before: Recovery, after: Recovery, turn: CompletedTurn) {
    && after.turn == turn
    && (if before.turn.availability == turn.availability then
          after.status == before.status && after.attempts == before.attempts
        else
          && after.attempts == 0
          && after.status == if before.status.Retryable? || before.status.Exhausted? then Pending else before.status)
  }

  /** What becomes of the sequence `k`: one that left the directory is dropped unless it is being read; a
      tracked one is described anew; and one above the watermark is taken up if `full` does not say that
      the load has no room. */
  ghost predicate KeyTold(before: State, after: State, d: Directory, k: nat, full: bool) {
    match DescriptorOf(d, k)
    case None =>
      if k in before.entries && (d.retainedFrom <= k || before.entries[k].status.Fetching?) then
        k in after.entries && after.entries[k] == before.entries[k]
      else k !in after.entries
    case Some(turn) =>
      if k in before.entries then
        && k in after.entries
        && (if k <= before.settledThrough then after.entries[k] == before.entries[k]
            else IsDescribed(before.entries[k], after.entries[k], turn))
      else if k <= before.settledThrough then k !in after.entries
      else if k in after.entries then after.entries[k] == Recovery(turn, Pending, 0)
      else after.behind && full
  }

  lemma DescribedAt(d: Directory, i: nat)
    requires d.WellFormed() && i < |d.entries|
    ensures d.entries[i].seqNo == d.retainedFrom + i
  {
  }

  /** The directory up to its `n`-th entry. */
  function UpTo(d: Directory, n: nat): Directory
    requires n <= |d.entries|
  {
    d.(entries := d.entries[..n])
  }

  lemma {:induction false} AdmitTold(st: State, d: Directory, n: nat, capacity: nat, k: nat)
    requires d.WellFormed() && n <= |d.entries|
    requires forall j | j in st.entries && j < d.retainedFrom :: st.entries[j].status.Fetching?
    ensures var after := st.Admit(d.entries[..n], capacity);
            && KeyTold(st, after, UpTo(d, n), k, |after.entries| >= capacity)
            && |st.entries| <= |after.entries| && (st.behind ==> after.behind)
            && after.settledThrough == st.settledThrough
  {
    if n != 0 {
      var before := st.Admit(d.entries[..n - 1], capacity);
      var turn := d.entries[n - 1];
      AdmitTold(st, d, n - 1, capacity, k);
      DescribedAt(d, n - 1);
      assert d.entries[..n][..n - 1] == d.entries[..n - 1];
      assert st.Admit(d.entries[..n], capacity) == before.AdmitOne(turn, capacity);
      hide State.Admit;
      AdmitOneTold(st, before, d, n, capacity, k);
    } else {
      assert UpTo(d, 0).entries == [];
    }
  }

  lemma AdmitOneTold(st: State, before: State, d: Directory, n: nat, capacity: nat, k: nat)
    requires d.WellFormed() && 0 < n <= |d.entries| && d.entries[n - 1].seqNo == d.retainedFrom + n - 1
    requires KeyTold(st, before, UpTo(d, n - 1), k, |before.entries| >= capacity)
    requires before.settledThrough == st.settledThrough
    ensures var after := before.AdmitOne(d.entries[n - 1], capacity);
            && KeyTold(st, after, UpTo(d, n), k, |after.entries| >= capacity)
            && |before.entries| <= |after.entries| && (before.behind ==> after.behind)
            && after.settledThrough == st.settledThrough
  {
    var after := before.AdmitOne(d.entries[n - 1], capacity);
    if k == d.retainedFrom + n - 1 {
      assert DescriptorOf(UpTo(d, n), k) == Some(d.entries[n - 1]);
      assert DescriptorOf(UpTo(d, n - 1), k) == None;
    } else {
      assert DescriptorOf(UpTo(d, n), k) == DescriptorOf(UpTo(d, n - 1), k);
    }
  }

  /** Where a tracked completion that is settled may have gone: below the watermark. */
  ghost predicate Passed(before: State, after: State, k: nat) {
    k !in after.entries && k in before.entries && before.entries[k].status.IsSettled()
    && before.settledThrough < k <= after.settledThrough
  }

  /** What applying a directory does to the sequence `k`: what `KeyTold` says of it, or it is settled and
      the watermark has passed it. An identity is left out only when the load's identities, with the ones
      that just passed the watermark, are as many as it may have. */
  lemma DiscoveryIsTold(st: State, d: Directory, limit: nat, k: nat)
    requires d.WellFormed()
    ensures var after := st.Discover(d, limit);
            && (Passed(st, after, k)
                || KeyTold(st, after, d, k,
                           |after.entries| + (after.settledThrough - st.settledThrough)
                           >= Min(limit, IDENTITIES_PER_LOAD)))
            && st.settledThrough <= after.settledThrough
  {
    var pruned := st.RaiseGap(d).Prune(d).(behind := false);
    var capacity := Min(limit, IDENTITIES_PER_LOAD);
    var admitted := pruned.Admit(d.entries, capacity);
    AdmitTold(pruned, d, |d.entries|, capacity, k);
    assert d.entries[..|d.entries|] == d.entries && UpTo(d, |d.entries|) == d;
    hide State.Admit;
    hide State.SettlePrefix;
    SettlePrefixRuns(admitted);
    SettledCount(admitted);
    PrunedTold(st, d, k);
    SettledTold(st, pruned, admitted, d, k, capacity);
  }

  lemma PrunedTold(st: State, d: Directory, k: nat)
    ensures var pruned := st.RaiseGap(d).Prune(d).(behind := false);
            && pruned.settledThrough == st.settledThrough
            && (k in pruned.entries <==>
                  k in st.entries && (d.retainedFrom <= k || st.entries[k].status.Fetching?))
            && (k in pruned.entries ==> pruned.entries[k] == st.entries[k])
  {
  }

  /** The sequences in `(low..high]`. */
  function Between(low: nat, high: nat): set<nat> {
    if high <= low then {} else Between(low, high - 1) + {high}
  }

  lemma {:induction false} BetweenIs(low: nat, high: nat)
    requires low <= high
    ensures |Between(low, high)| == high - low
    ensures forall j: nat :: j in Between(low, high) <==> low < j <= high
  {
    if low < high {
      BetweenIs(low, high - 1);
    }
  }

  /** The watermark passes no more identities than it moves. */
  lemma SettledCount(st: State)
    ensures var after := st.SettlePrefix();
            |st.entries| <= |after.entries| + (after.settledThrough - st.settledThrough)
  {
    SettlePrefixRuns(st);
    hide State.SettlePrefix;
    var after := st.SettlePrefix();
    var passed := Between(st.settledThrough, after.settledThrough);
    BetweenIs(st.settledThrough, after.settledThrough);
    hide Between;
    assert st.entries.Keys <= after.entries.Keys + passed;
    SubsetSize(st.entries.Keys, after.entries.Keys + passed);
    assert |after.entries.Keys + passed| <= |after.entries.Keys| + |passed|;
    assert |st.entries| == |st.entries.Keys| && |after.entries| == |after.entries.Keys|;
  }

  lemma SettledTold(st: State, pruned: State, admitted: State, d: Directory, k: nat, capacity: nat)
    requires pruned.settledThrough == st.settledThrough == admitted.settledThrough
    requires k in pruned.entries <==> k in st.entries && (d.retainedFrom <= k || st.entries[k].status.Fetching?)
    requires k in pruned.entries ==> pruned.entries[k] == st.entries[k]
    requires KeyTold(pruned, admitted, d, k, |admitted.entries| >= capacity)
    ensures var after := admitted.SettlePrefix();
            Passed(st, after, k)
            || KeyTold(st, after, d, k, |after.entries| + (after.settledThrough - st.settledThrough) >= capacity)
  {
    SettlePrefixRuns(admitted);
    SettledCount(admitted);
    hide State.SettlePrefix;
  }
}
