/**
 Why rest needs a clean run to mean that the limits are used up: five sessions track 1024 identities,
 one of which left its catalog. The session that is scanned first finds no room for its completion;
 the next one then drops the leftover, and nothing scans the first again.
 */
module SchedulerLeftovers {
  import opened Wrappers
  import opened Completion
  import opened CompletionLaws
  import opened Scheduler
  import opened SchedulerLaws
  import opened SchedulerFairness
  import opened SchedulerWork
  import opened SchedulerQuiet

  // ---- sessions at rest -------------------------------------------------

  /** Everything tracked has failed for good, nothing is read, and no history is due. */
  ghost predicate AtRest(s: Session) {
    && (forall k | k in s.recovery.entries :: s.recovery.entries[k].status.Exhausted?)
    && s.tasks == []
    && (s.recovery.historyStatus.Some? ==> s.recovery.historyStatus.value.Exhausted?)
  }

  ghost predicate AllAtRest(residents: seq<Session>) {
    forall u | 0 <= u < |residents| :: AtRest(residents[u])
  }

  /** What is tracked once the identities that left the catalog are dropped. */
  function Kept(s: Session): map<nat, Recovery> {
    s.recovery.entries - s.recovery.Retired(s.catalog)
  }

  /** Nothing of the catalog can be admitted: it is tracked as the catalog says, or there is no room. */
  ghost predicate NothingToAdmit(s: Session, capacity: nat) {
    forall j | 0 <= j < |s.catalog.entries| ::
      var turn := s.catalog.entries[j];
      if turn.seqNo in Kept(s) then Kept(s)[turn.seqNo].turn == turn
      else s.recovery.settledThrough < turn.seqNo && capacity <= |Kept(s)|
  }

  lemma {:induction false} AdmitNothing(st: State, turns: seq<CompletedTurn>, capacity: nat)
    requires forall j | 0 <= j < |turns| ::
               if turns[j].seqNo in st.entries then st.entries[turns[j].seqNo].turn == turns[j]
               else st.settledThrough < turns[j].seqNo && capacity <= |st.entries|
    ensures var after := st.Admit(turns, capacity);
            && after == st.(behind := after.behind) && (st.behind ==> after.behind)
            && (forall j | 0 <= j < |turns| && turns[j].seqNo !in st.entries :: after.behind)
  {
    if turns != [] {
      AdmitNothing(st, turns[..|turns| - 1], capacity);
      var before, turn := st.Admit(turns[..|turns| - 1], capacity), turns[|turns| - 1];
      if turn.seqNo in st.entries {
        assert before.entries[turn.seqNo := before.entries[turn.seqNo]] == before.entries;
      }
    }
  }

  /** The catalog is not ahead of the gap. */
  ghost predicate GapIsRaised(s: Session) {
    s.catalog.truncated && s.catalog.retainedFrom > s.recovery.settledThrough + 1 ==>
      s.catalog.retainedFrom - 1 <= s.recovery.gapThrough
  }

  lemma DiscoverRests(s: Session, limit: nat, now: Instant)
    requires AtRest(s) && GapIsRaised(s) && NothingToAdmit(s, Min(limit, IDENTITIES_PER_LOAD))
    ensures var known := s.(recovery := s.recovery.Discover(s.catalog, limit));
            && AtRest(known) && GapIsRaised(known) && StartRead(known, now) == known
            && known.recovery.entries == Kept(s) && known.recovery.settledThrough == s.recovery.settledThrough
            && known.recovery.gapThrough == s.recovery.gapThrough
            && (forall j | 0 <= j < |s.catalog.entries| && s.catalog.entries[j].seqNo !in Kept(s) ::
                  known.recovery.behind)
  {
    var pruned := s.recovery.RaiseGap(s.catalog).Prune(s.catalog).(behind := false);
    var admitted := pruned.Admit(s.catalog.entries, Min(limit, IDENTITIES_PER_LOAD));
    assert pruned.entries == Kept(s);
    AdmitNothing(pruned, s.catalog.entries, Min(limit, IDENTITIES_PER_LOAD));
    assert admitted.SettlePrefix() == admitted;
    hide State.Admit;
    assert admitted.ReadyKeys(now) == {};
  }

  /** A scan of a session at rest with nothing to admit only drops its leftovers. */
  lemma ScanRests(residents: seq<Session>, i: nat, now: Instant)
    requires Distinct(residents) && AllAtRest(residents) && i < |residents|
    requires GapIsRaised(residents[i])
    requires NothingToAdmit(residents[i], Share(residents, i))
    ensures var (after, started) := RecoverResident(residents, residents[i].epoch, now);
            && !started && |after| == |residents| && after == residents[i := after[i]]
            && after[i] == residents[i].(recovery := after[i].recovery)
            && AtRest(after[i]) && GapIsRaised(after[i]) && after[i].recovery.entries == Kept(residents[i])
            && after[i].recovery.settledThrough == residents[i].recovery.settledThrough
            && after[i].recovery.gapThrough == residents[i].recovery.gapThrough
            && (forall j | 0 <= j < |residents[i].catalog.entries|
                  && residents[i].catalog.entries[j].seqNo !in Kept(residents[i]) :: after[i].recovery.behind)
  {
    assert Position(residents, residents[i].epoch) == i;
    assert forall u | 0 <= u < |residents| :: AtRest(residents[u]) ==> residents[u].recovery.Unstarted() == {};
    DiscoverRests(residents[i], CapacityFor(residents, residents[i].epoch), now);
    hide State.Discover;
    hide StartRead;
    hide CapacityFor;
  }

  // ---- a pass over such sessions ----------------------------------------

  /** Every catalog entry is tracked by an identity that stays. */
  ghost predicate Complete(s: Session) {
    && GapIsRaised(s)
    && forall j | 0 <= j < |s.catalog.entries| ::
         s.catalog.entries[j].seqNo in Kept(s) && Kept(s)[s.catalog.entries[j].seqNo].turn == s.catalog.entries[j]
  }

  ghost predicate AllComplete(residents: seq<Session>, order: seq<nat>) {
    forall u | 0 <= u < |residents| && residents[u].epoch in order :: Complete(residents[u])
  }

  ghost predicate NoneTwice(order: seq<nat>) {
    forall a, b | 0 <= a < b < |order| :: order[a] != order[b]
  }

  /** What a pass over complete sessions leaves: those it scans without their leftovers, the others as
      they were. */
  ghost predicate Pruned(residents: seq<Session>, after: seq<Session>, order: seq<nat>) {
    && |after| == |residents|
    && forall u | 0 <= u < |residents| ::
         && after[u] == residents[u].(recovery := after[u].recovery)
         && (if residents[u].epoch in order then after[u].recovery.entries == Kept(residents[u])
             else after[u] == residents[u])
  }

  lemma {:induction false} PassRests(p: Progress, order: seq<nat>, now: Instant)
    requires Distinct(p.residents) && AllAtRest(p.residents) && AllComplete(p.residents, order) && NoneTwice(order)
    requires p.slots != 0
    ensures Pass(p, order, now).slots == p.slots && Pass(p, order, now).after == p.after
    ensures Pruned(p.residents, Pass(p, order, now).residents, order) && AllAtRest(Pass(p, order, now).residents)
    decreases |order|
  {
    hide AtRest;
    hide Complete;
    hide RecoverResident;
    if order != [] {
      var i := Position(p.residents, order[0]);
      var (residents, started) := RecoverResident(p.residents, order[0], now);
      assert order == [order[0]] + order[1..];
      if i < |p.residents| {
        CompleteScan(p.residents, i, now);
      } else {
        NotScanned(p.residents, order[0], now);
      }
      PassRests(p.(residents := residents), order[1..], now);
    }
  }

  lemma CompleteScan(residents: seq<Session>, i: nat, now: Instant)
    requires Distinct(residents) && AllAtRest(residents) && i < |residents| && Complete(residents[i])
    ensures var (after, started) := RecoverResident(residents, residents[i].epoch, now);
            && !started && |after| == |residents| && after == residents[i := after[i]]
            && after[i] == residents[i].(recovery := after[i].recovery)
            && AtRest(after[i]) && after[i].recovery.entries == Kept(residents[i])
  {
    ScanRests(residents, i, now);
  }

  // ---- the five sessions ------------------------------------------------

  function Turn(k: nat): CompletedTurn {
    CompletedTurn(k, "", Stored)
  }

  function Turns(from: nat, n: nat): (turns: seq<CompletedTurn>)
    ensures |turns| == n && forall j | 0 <= j < n :: turns[j] == Turn(from + j)
  {
    seq(n, j requires 0 <= j => Turn(from + j))
  }

  function Failed(n: nat): map<nat, Recovery> {
    map k | 1 <= k <= n :: Recovery(Turn(k), Exhausted, MAX_RETRIES + 1)
  }

  lemma {:induction false} FailedSize(n: nat)
    ensures |Failed(n)| == n
  {
    if n != 0 {
      FailedSize(n - 1);
      assert Failed(n) == Failed(n - 1)[n := Recovery(Turn(n), Exhausted, MAX_RETRIES + 1)];
    }
  }

  /** A load that tracks 256 identities, all of its catalog. */
  function Full(epoch: nat): Session {
    Session(epoch, Directory(256, 1, Turns(1, 256), false), Fresh.(observedThrough := 256, entries := Failed(256)), [])
  }

  /** One more like it, whose catalog dropped the first identity while it was read. */
  function WithLeftover(epoch: nat): Session {
    Session(epoch, Directory(256, 2, Turns(2, 255), true),
            Fresh.(observedThrough := 256, entries := Failed(256), truncatedGap := true, gapThrough := 1,
                   historyStatus := Some(Exhausted), historyAttempts := MAX_RETRIES + 1), [])
  }

  /** A load that tracks nothing, because there is no room for its one completion. */
  function Behind(epoch: nat): Session {
    Session(epoch, Directory(1, 1, Turns(1, 1), false), Fresh.(observedThrough := 1, behind := true), [])
  }

  function Crowd(): seq<Session> {
    [Behind(0), WithLeftover(1), Full(2), Full(3), Full(4)]
  }

  lemma FullIsConsistent(epoch: nat)
    ensures var s := Full(epoch);
            && Consistent(s) && Tidy(s.recovery) && AtRest(s) && Complete(s)
            && s.epoch == epoch && s.tasks == [] && |s.recovery.entries| == 256
  {
    FailedSize(256);
    hide Failed;
    FailedAre(256);
  }

  lemma FailedAre(n: nat)
    ensures forall k :: k in Failed(n) <==> 1 <= k <= n
    ensures forall k | k in Failed(n) :: Failed(n)[k] == Recovery(Turn(k), Exhausted, MAX_RETRIES + 1)
  {
  }

  lemma LeftoverIsConsistent(epoch: nat)
    ensures var s := WithLeftover(epoch);
            && Consistent(s) && Tidy(s.recovery) && AtRest(s) && Complete(s)
            && s.epoch == epoch && s.tasks == [] && |s.recovery.entries| == 256
            && 1 in s.recovery.Retired(s.catalog) && |Kept(s)| < 256
  {
    FailedSize(256);
    FailedAre(256);
    hide Failed;
    var s := WithLeftover(epoch);
    assert Kept(s).Keys == s.recovery.entries.Keys - {1};
    assert |Kept(s)| == |Kept(s).Keys| && |s.recovery.entries| == |s.recovery.entries.Keys|;
  }

  lemma BehindIsConsistent(epoch: nat)
    ensures var s := Behind(epoch);
            && Consistent(s) && Tidy(s.recovery) && AtRest(s) && GapIsRaised(s)
            && s.epoch == epoch && s.tasks == [] && |s.recovery.entries| == 0
  {
  }

  lemma SumsOfFive(a: Session, b: Session, c: Session, d: Session, e: Session)
    ensures Tracked([a, b, c, d, e]) == |a.recovery.entries| + |b.recovery.entries| + |c.recovery.entries|
                                        + |d.recovery.entries| + |e.recovery.entries|
    ensures InFlight([a, b, c, d, e]) == |a.tasks| + |b.tasks| + |c.tasks| + |d.tasks| + |e.tasks|
  {
    SumsConcat([a, b], [c, d, e]);
    SumsConcat([a], [b]);
    SumsConcat([c], [d, e]);
    SumsConcat([d], [e]);
    assert [a, b] + [c, d, e] == [a, b, c, d, e] && [a] + [b] == [a, b] && [c] + [d, e] == [c, d, e];
    assert [d] + [e] == [d, e];
    SumsOfOne(a);
    SumsOfOne(b);
    SumsOfOne(c);
    SumsOfOne(d);
    SumsOfOne(e);
    hide Tracked;
    hide InFlight;
  }

  lemma SumsOfOne(s: Session)
    ensures Tracked([s]) == |s.recovery.entries| && InFlight([s]) == |s.tasks|
  {
    assert [s][1..] == [];
  }

  /** What the crowd comes to, in any five sessions. */
  ghost predicate Crowded(residents: seq<Session>) {
    && |residents| == 5 && AllConsistent(residents) && AllTidy(residents) && AllAtRest(residents)
    && (forall u | 0 <= u < 5 :: residents[u].epoch == u && residents[u].tasks == [])
    && (forall u | 1 <= u < 5 :: Complete(residents[u]) && |residents[u].recovery.entries| == 256)
    && residents[0] == Behind(0)
    && 1 in residents[1].recovery.Retired(residents[1].catalog) && |Kept(residents[1])| < 256
  }

  lemma CrowdIsCrowded()
    ensures Crowded(Crowd())
  {
    hide Consistent;
    hide Tidy;
    hide AtRest;
    hide Complete;
    hide Full;
    hide WithLeftover;
    hide Behind;
    BehindIsConsistent(0);
    LeftoverIsConsistent(1);
    FullIsConsistent(2);
    FullIsConsistent(3);
    FullIsConsistent(4);
    forall u | 0 <= u < 5
      ensures Consistent(Crowd()[u]) && Tidy(Crowd()[u].recovery) && AtRest(Crowd()[u])
      ensures Crowd()[u].epoch == u && Crowd()[u].tasks == []
      ensures u > 0 ==> Complete(Crowd()[u]) && |Crowd()[u].recovery.entries| == 256
    {
      assert u == 0 || u == 1 || u == 2 || u == 3 || u == 4;
    }
  }

  lemma CrowdedIsLawful(residents: seq<Session>)
    requires Crowded(residents)
    ensures Lawful(residents) && !NoLeftovers(residents)
    ensures Tracked(residents) == IDENTITIES_TOTAL && InFlight(residents) == 0
  {
    hide Consistent;
    hide Tidy;
    hide AtRest;
    hide Complete;
    hide Tracked;
    hide InFlight;
    SumsOfFive(residents[0], residents[1], residents[2], residents[3], residents[4]);
    assert residents == [residents[0], residents[1], residents[2], residents[3], residents[4]];
  }

  // ---- the call ---------------------------------------------------------

  lemma EpochsOfFive(residents: seq<Session>)
    requires |residents| == 5 && forall u | 0 <= u < 5 :: residents[u].epoch == u
    ensures EpochsOf(residents) == {0, 1, 2, 3, 4}
  {
    forall x: nat | x < 5
      ensures x in EpochsOf(residents)
    {
      assert residents[x] in residents;
    }
    forall x | x in EpochsOf(residents)
      ensures x < 5
    {
      var s :| s in residents && s.epoch == x;
    }
  }

  lemma RotationOfFive(residents: seq<Session>)
    requires |residents| == 5 && forall u | 0 <= u < 5 :: residents[u].epoch == u
    ensures Rotation(residents, None) == [0, 1, 2, 3, 4]
  {
    hide Ascending;
    hide EpochsOf;
    var epochs := Ascending(EpochsOf(residents));
    RotationLists(residents, None);
    EpochsOfFive(residents);
    assert |{0, 1, 2, 3, 4}| == 5;
    FiveAscending(epochs);
  }

  lemma FiveAscending(epochs: seq<nat>)
    requires StrictlyAscending(epochs) && |epochs| == 5 && forall x | x in epochs :: x < 5
    ensures epochs == [0, 1, 2, 3, 4]
  {
    assert epochs[4] in epochs;
    assert epochs[0] < epochs[1] < epochs[2] < epochs[3] < epochs[4];
  }

  /** The first session is scanned in vain. */
  lemma BehindScan(residents: seq<Session>, now: Instant)
    requires Crowded(residents)
    ensures var (after, started) := RecoverResident(residents, 0, now);
            && !started && |after| == 5 && after == residents[0 := after[0]]
            && after[0] == residents[0].(recovery := after[0].recovery) && AtRest(after[0])
            && after[0].recovery.entries == map[] && after[0].recovery.settledThrough == 0 && after[0].recovery.behind
            && after[0].recovery.gapThrough == 0
  {
    hide Consistent;
    hide Complete;
    hide Lawful;
    hide RecoverResident;
    hide Share;
    CrowdedIsLawful(residents);
    BehindIsConsistent(0);
    ShareIs(residents, 0);
    assert Kept(residents[0]) == map[];
    assert residents[0].catalog.entries[0] == Turn(1);
    LawfulIsDistinct(residents);
    ScanRests(residents, 0, now);
  }

  /** So the call leaves the first session behind although there is room, nothing is due, and no read
      is in flight. */
  lemma LeftoverLeavesRoom(now: Instant)
    ensures var w := World(Crowd(), None, now); var after := RecoverCompletions(w).residents;
            && Lawful(w.residents) && AllTidy(w.residents) && !NoLeftovers(w.residents)
            && |after| == 5 && InFlight(after) == 0 && AllAtRest(after)
            && after[0].recovery.behind && Untracked(after[0].recovery, 1) && !Rests(after[0], 1)
            && !LimitsUsedUp(after, after[0])
  {
    CrowdIsCrowded();
    hide Crowd;
    CrowdedCall(World(Crowd(), None, now));
  }

  lemma CrowdedCall(w: World)
    requires Crowded(w.residents) && w.recoveryAfter == None
    ensures var after := RecoverCompletions(w).residents;
            && Lawful(w.residents) && !NoLeftovers(w.residents)
            && |after| == 5 && InFlight(after) == 0 && AllAtRest(after)
            && after[0].recovery.behind && Untracked(after[0].recovery, 1) && !Rests(after[0], 1)
            && !LimitsUsedUp(after, after[0])
  {
    hide Consistent;
    hide Complete;
    hide AtRest;
    hide Lawful;
    hide RecoverResident;
    hide Rotation;
    hide Pass;
    hide Tracked;
    hide InFlight;
    var p := Progress(w.residents, 1, None);
    CrowdedIsLawful(w.residents);
    RotationOfFive(w.residents);
    FreeSlotsOf(w.residents);
    ScheduledIsOnePass(w);
    BehindScan(w.residents, w.now);
    var first := RecoverResident(w.residents, 0, w.now).0;
    FirstOfPass(p, first, w.now);
    PassRests(p.(residents := first), [1, 2, 3, 4], w.now);
    CrowdedAfter(w.residents, first, Pass(p.(residents := first), [1, 2, 3, 4], w.now).residents);
    hide Rounds;
  }

  lemma FreeSlotsOf(residents: seq<Session>)
    requires InFlight(residents) == 0
    ensures FreeSlots(residents) == 1
  {
  }

  lemma FirstOfPass(p: Progress, first: seq<Session>, now: Instant)
    requires p.slots == 1 && RecoverResident(p.residents, 0, now) == (first, false)
    ensures Pass(p, [0, 1, 2, 3, 4], now) == Pass(p.(residents := first), [1, 2, 3, 4], now)
  {
    assert [0, 1, 2, 3, 4][1..] == [1, 2, 3, 4];
  }

  /** The leftover is gone, so one identity is tracked less than the limit. */
  lemma CrowdedAfter(residents: seq<Session>, first: seq<Session>, after: seq<Session>)
    requires Crowded(residents) && |first| == 5 && first == residents[0 := first[0]]
    requires first[0] == residents[0].(recovery := first[0].recovery)
    requires first[0].recovery.entries == map[] && first[0].recovery.settledThrough == 0 && first[0].recovery.behind
    requires first[0].recovery.gapThrough == 0
    requires Pruned(first, after, [1, 2, 3, 4])
    ensures |after| == 5 && InFlight(after) == 0 && Tracked(after) < IDENTITIES_TOTAL && after[0] == first[0]
    ensures Untracked(after[0].recovery, 1) && !Rests(after[0], 1) && !LimitsUsedUp(after, after[0])
  {
    hide Consistent;
    hide Complete;
    hide AtRest;
    hide Tracked;
    hide InFlight;
    hide Crowded;
    hide Pruned;
    PrunedSizes(residents, first, after);
    SumsOfFive(after[0], after[1], after[2], after[3], after[4]);
    assert after == [after[0], after[1], after[2], after[3], after[4]];
  }

  lemma PrunedSizes(residents: seq<Session>, first: seq<Session>, after: seq<Session>)
    requires Crowded(residents) && |first| == 5 && first == residents[0 := first[0]]
    requires first[0] == residents[0].(recovery := first[0].recovery)
    requires Pruned(first, after, [1, 2, 3, 4])
    ensures |after| == 5 && after[0] == first[0] && forall u | 0 <= u < 5 :: after[u].tasks == []
    ensures |after[1].recovery.entries| < 256 && forall u | 2 <= u < 5 :: |after[u].recovery.entries| <= 256
  {
    hide Consistent;
    hide Complete;
    hide AtRest;
    hide Kept;
    assert 1 in [1, 2, 3, 4] && 2 in [1, 2, 3, 4] && 3 in [1, 2, 3, 4] && 4 in [1, 2, 3, 4];
    forall u | 2 <= u < 5
      ensures |after[u].recovery.entries| <= 256
    {
      assert first[u] == residents[u] && after[u].recovery.entries == Kept(residents[u]);
      KeptIsLess(residents[u]);
    }
    assert first[1] == residents[1] && after[1].recovery.entries == Kept(residents[1]);
  }

  lemma KeptIsLess(s: Session)
    ensures |Kept(s)| <= |s.recovery.entries|
  {
    SubsetSize(Kept(s).Keys, s.recovery.entries.Keys);
    assert |Kept(s)| == |Kept(s).Keys| && |s.recovery.entries| == |s.recovery.entries.Keys|;
  }
}
