/**
 The rotation is fair: a session that accepts a read whenever it is scanned waits for at most
 one admission of each other session, because every admission brings the rotation closer to it.
 */
module SchedulerFairness {
  import opened Wrappers
  import opened Completion
  import opened Scheduler
  import opened SchedulerLaws

  // ---- rotation -------------------------------------------------------

  ghost predicate StrictlyAscending(epochs: seq<nat>) {
    forall i, j | 0 <= i < j < |epochs| :: epochs[i] < epochs[j]
  }

  lemma {:induction false} AscendingLists(s: set<nat>)
    ensures StrictlyAscending(Ascending(s)) && |Ascending(s)| == |s|
    ensures forall x :: x in Ascending(s) <==> x in s
    decreases |s|
  {
    if s != {} {
      var m := Least(s);
      AscendingLists(s - {m});
      forall i, j | 0 <= i < j < |Ascending(s)|
        ensures Ascending(s)[i] < Ascending(s)[j]
      {
        assert Ascending(s)[j] == Ascending(s - {m})[j - 1];
        assert Ascending(s)[j] in Ascending(s - {m});
      }
    }
  }

  /** Where the rotation begins in the ascending list. */
  function Turn(epochs: seq<nat>, after: Option<nat>): (n: nat)
    ensures n <= |epochs|
  {
    match after case None => 0 case Some(last) => PartitionPoint(epochs, last)
  }

  function Rotated(epochs: seq<nat>, n: nat): (order: seq<nat>)
    requires n <= |epochs|
    ensures |order| == |epochs|
  {
    epochs[n..] + epochs[..n]
  }

  /** How many sessions the rotation scans before `epoch`. */
  function Distance(order: seq<nat>, epoch: nat): nat {
    if order == [] || order[0] == epoch then 0 else 1 + Distance(order[1..], epoch)
  }

  lemma {:induction false} DistanceIs(order: seq<nat>, d: nat)
    requires d < |order| && forall j | 0 <= j < d :: order[j] != order[d]
    ensures Distance(order, order[d]) == d
  {
    if d != 0 {
      assert forall j | 0 <= j < |order[1..]| :: order[1..][j] == order[j + 1];
      DistanceIs(order[1..], d - 1);
    }
  }

  function Wrapped(i: nat, length: nat): nat {
    if i < length then i else i - length
  }

  lemma DistinctDistance(epochs: seq<nat>, n: nat, d: nat)
    requires StrictlyAscending(epochs) && n <= |epochs| && d < |epochs|
    ensures Distance(Rotated(epochs, n), Rotated(epochs, n)[d]) == d
  {
    var order := Rotated(epochs, n);
    forall j | 0 <= j < d
      ensures order[j] != order[d]
    {
      assert order[j] == epochs[Wrapped(n + j, |epochs|)];
    }
    DistanceIs(order, d);
  }

  lemma {:induction false} PartitionPointAt(epochs: seq<nat>, at: nat)
    requires StrictlyAscending(epochs) && at < |epochs|
    ensures PartitionPoint(epochs, epochs[at]) == at + 1
  {
    if at != 0 {
      PartitionPointAt(epochs[1..], at - 1);
    }
  }

  lemma RotatedAt(epochs: seq<nat>, n: nat, d: nat)
    requires n <= |epochs| && d < |epochs|
    ensures Rotated(epochs, n)[d] == epochs[Wrapped(n + d, |epochs|)]
  {
  }

  lemma RotationMeets(epochs: seq<nat>, n: nat, k: nat, d: nat)
    requires n <= |epochs| && k < d < |epochs|
    ensures Rotated(epochs, Wrapped(n + k, |epochs|) + 1)[d - k - 1] == Rotated(epochs, n)[d]
  {
    RotatedAt(epochs, n, d);
    RotatedAt(epochs, Wrapped(n + k, |epochs|) + 1, d - k - 1);
  }

  /** Serving the `k`-th session of the rotation moves every later one forward by `k + 1`. */
  lemma ServingShortens(epochs: seq<nat>, n: nat, k: nat, d: nat)
    requires StrictlyAscending(epochs) && n <= |epochs| && k < d < |epochs|
    ensures var order := Rotated(epochs, n);
            var next := Rotated(epochs, Turn(epochs, Some(order[k])));
            Distance(next, order[d]) == d - k - 1
  {
    hide Rotated;
    hide Distance;
    hide PartitionPoint;
    hide StrictlyAscending;
    var at := Wrapped(n + k, |epochs|);
    RotatedAt(epochs, n, k);
    PartitionPointAt(epochs, at);
    RotationMeets(epochs, n, k, d);
    DistinctDistance(epochs, at + 1, d - k - 1);
  }

  lemma RotationLists(residents: seq<Session>, after: Option<nat>)
    ensures var epochs := Ascending(EpochsOf(residents));
            && StrictlyAscending(epochs)
            && Rotation(residents, after) == Rotated(epochs, Turn(epochs, after))
            && |epochs| == |EpochsOf(residents)|
            && forall x :: x in epochs <==> x in EpochsOf(residents)
  {
    AscendingLists(EpochsOf(residents));
  }

  // ---- one scheduling call --------------------------------------------

  /** A pass reaches `target` with a free slot and starts nothing for it. */
  ghost predicate Declines(p: Progress, order: seq<nat>, target: nat, now: Instant)
    decreases |order|
  {
    && order != [] && p.slots != 0
    && var (residents, started) := RecoverResident(p.residents, order[0], now);
       if order[0] == target then !started
       else Declines(if started then Progress(residents, p.slots - 1, Some(order[0])) else p.(residents := residents),
                     order[1..], target, now)
  }

  /** The scheduling call would have served `target` had it got that far. */
  ghost predicate Willing(w: World, target: nat) {
    !Declines(Progress(w.residents, FreeSlots(w.residents), w.recoveryAfter),
              Rotation(w.residents, w.recoveryAfter), target, w.now)
  }

  /** With one free slot the pass serves `target` or a session scanned before it. */
  lemma {:induction false} PassServes(p: Progress, order: seq<nat>, target: nat, now: Instant)
    requires p.slots == 1 && target in order && !Declines(p, order, target, now)
    ensures var q := Pass(p, order, now);
            q.slots == 0 && exists k :: 0 <= k <= Distance(order, target) && k < |order| && q.after == Some(order[k])
    decreases |order|
  {
    var (residents, started) := RecoverResident(p.residents, order[0], now);
    if started {
      var next := Progress(residents, 0, Some(order[0]));
      assert Pass(p, order, now) == Pass(next, order[1..], now) == next;
      assert Pass(p, order, now).after == Some(order[0]);
    } else {
      assert order[0] != target;
      PassServes(p.(residents := residents), order[1..], target, now);
      var k :| 0 <= k <= Distance(order[1..], target) && k < |order[1..]|
               && Pass(p, order, now).after == Some(order[1..][k]);
      assert order[1..][k] == order[k + 1];
    }
  }

  /** The distance a world puts between its rotation and `target`. */
  function Wait(w: World, target: nat): nat {
    Distance(Rotation(w.residents, w.recoveryAfter), target)
  }

  lemma {:induction false} DistanceFound(order: seq<nat>, target: nat)
    requires target in order
    ensures Distance(order, target) < |order| && order[Distance(order, target)] == target
  {
    if order[0] != target {
      assert order == [order[0]] + order[1..];
      DistanceFound(order[1..], target);
    }
  }

  lemma SameEpochSets(a: seq<Session>, b: seq<Session>)
    requires SameEpochs(a, b)
    ensures EpochsOf(a) == EpochsOf(b)
  {
    forall x
      ensures x in EpochsOf(a) <==> x in EpochsOf(b)
    {
      if x in EpochsOf(a) {
        var i :| 0 <= i < |a| && a[i].epoch == x;
        assert b[i] in b && b[i].epoch == x;
      }
      if x in EpochsOf(b) {
        var i :| 0 <= i < |b| && b[i].epoch == x;
        assert a[i] in a && a[i].epoch == x;
      }
    }
  }

  lemma ScheduledIsOnePass(w: World)
    requires Lawful(w.residents) && FreeSlots(w.residents) == 1
    ensures var p := Progress(w.residents, 1, w.recoveryAfter);
            Scheduled(w) == Pass(p, Rotation(w.residents, w.recoveryAfter), w.now)
  {
    var p := Progress(w.residents, 1, w.recoveryAfter);
    var order := Rotation(w.residents, w.recoveryAfter);
    assert Rounds(CONCURRENT - 1, Pass(p, order, w.now), order, w.now) == Pass(p, order, w.now);
  }

  lemma RotatedHas(epochs: seq<nat>, n: nat, target: nat)
    requires n <= |epochs| && target in epochs
    ensures target in Rotated(epochs, n) && |Rotated(epochs, n)| == |epochs|
  {
    var k :| 0 <= k < |epochs| && epochs[k] == target;
    if k < n {
      assert Rotated(epochs, n)[|epochs| - n + k] == target;
    } else {
      assert Rotated(epochs, n)[k - n] == target;
    }
  }

  lemma RotationHas(w: World, target: nat)
    requires target in EpochsOf(w.residents)
    ensures target in Rotation(w.residents, w.recoveryAfter)
    ensures |Rotation(w.residents, w.recoveryAfter)| == |EpochsOf(w.residents)|
  {
    RotationLists(w.residents, w.recoveryAfter);
    var epochs := Ascending(EpochsOf(w.residents));
    RotatedHas(epochs, Turn(epochs, w.recoveryAfter), target);
  }

  lemma SchedulingServes(w: World, target: nat) returns (k: nat)
    requires Lawful(w.residents) && target in EpochsOf(w.residents)
    requires FreeSlots(w.residents) == 1 && Willing(w, target)
    ensures Scheduled(w).slots == 0
    ensures k <= Wait(w, target) && k < |Rotation(w.residents, w.recoveryAfter)|
    ensures Scheduled(w).after == Some(Rotation(w.residents, w.recoveryAfter)[k])
  {
    var order := Rotation(w.residents, w.recoveryAfter);
    RotationHas(w, target);
    ScheduledIsOnePass(w);
    PassServes(Progress(w.residents, 1, w.recoveryAfter), order, target, w.now);
    k :| 0 <= k <= Distance(order, target) && k < |order| && Scheduled(w).after == Some(order[k]);
  }

  /** One call with a free slot serves `target`, or brings the rotation strictly closer to it. */
  lemma SchedulingApproaches(w: World, target: nat)
    requires Lawful(w.residents) && target in EpochsOf(w.residents)
    requires FreeSlots(w.residents) == 1 && Willing(w, target)
    ensures Starts(w) == 1
    ensures var after := RecoverCompletions(w);
            after.recoveryAfter == Some(target) || Wait(after, target) < Wait(w, target)
  {
    var k := SchedulingServes(w, target);
    var after := RecoverCompletions(w);
    RotationLists(w.residents, w.recoveryAfter);
    RotationHas(w, target);
    DistanceFound(Rotation(w.residents, w.recoveryAfter), target);
    ScheduledEpochs(w);
    RotationLists(after.residents, after.recoveryAfter);
    if k < Wait(w, target) {
      var epochs := Ascending(EpochsOf(w.residents));
      ServingShortens(epochs, Turn(epochs, w.recoveryAfter), k, Wait(w, target));
    }
  }

  // ---- whole runs -----------------------------------------------------

  /** No session opens or closes, and a scheduling call that has a free slot would have served
      `target` but served somebody else. */
  ghost predicate PassesOver(w: World, step: Step, target: nat) {
    && Enabled(w, step)
    && !step.Opened? && !(step.On? && step.act.Closed?)
    && (Schedules(w, step) && FreeSlots(Handle(w, step).residents) == 1 ==>
          Willing(Handle(w, step), target) && Next(w, step).recoveryAfter != Some(target))
  }

  /** Every step of the run passes `target` over. */
  ghost predicate PassedOver(w: World, steps: seq<Step>, target: nat)
    decreases |steps|
  {
    steps == [] || (PassesOver(w, steps[0], target) && PassedOver(Next(w, steps[0]), steps[1..], target))
  }

  /** How many reads the scheduler admitted over a run. */
  function Admissions(w: World, steps: seq<Step>): nat
    decreases |steps|
  {
    if steps == [] then 0
    else (if Schedules(w, steps[0]) then Starts(Handle(w, steps[0])) else 0) + Admissions(Next(w, steps[0]), steps[1..])
  }

  lemma ActKeepsEpochs(residents: seq<Session>, i: nat, act: Act, now: Instant)
    requires i < |residents| && !act.Closed? && !act.Selected?
    ensures SameEpochs(HandleAct(residents, i, act, now), residents)
  {
    hide State.RetryFailed;
    hide State.Discover;
    hide State.Record;
    hide State.SettlePrefix;
  }

  lemma HandleKeepsEpochs(w: World, step: Step)
    requires Lawful(w.residents) && Enabled(w, step)
    requires !step.Opened? && !(step.On? && step.act.Closed?)
    ensures EpochsOf(Handle(w, step).residents) == EpochsOf(w.residents)
    ensures Handle(w, step).recoveryAfter == w.recoveryAfter
  {
    if step.On? {
      var i := Position(w.residents, step.epoch);
      if step.act.Selected? {
        SelectedEpochs(w.residents, i);
      } else {
        ActKeepsEpochs(w.residents, i, step.act, w.now);
        SameEpochSets(Handle(w, step).residents, w.residents);
      }
    }
  }

  lemma SelectedEpochs(residents: seq<Session>, i: nat)
    requires i < |residents|
    ensures EpochsOf([residents[i]] + residents[..i] + residents[i + 1..]) == EpochsOf(residents)
  {
    assert residents == residents[..i] + [residents[i]] + residents[i + 1..];
    forall s
      ensures s in residents <==> s in [residents[i]] + residents[..i] + residents[i + 1..]
    {
    }
  }

  lemma ScheduledEpochs(w: World)
    requires Lawful(w.residents)
    ensures EpochsOf(RecoverCompletions(w).residents) == EpochsOf(w.residents)
    ensures Starts(w) == 0 ==> Scheduled(w).slots == FreeSlots(w.residents)
  {
    var p := Progress(w.residents, FreeSlots(w.residents), w.recoveryAfter);
    RoundsLawful(CONCURRENT, p, Rotation(w.residents, w.recoveryAfter), w.now);
    SameEpochSets(RecoverCompletions(w).residents, w.residents);
  }

  lemma AdmissionStep(w: World, step: Step, target: nat)
    requires Lawful(w.residents) && target in EpochsOf(w.residents) && PassesOver(w, step, target)
    ensures (if Schedules(w, step) then Starts(Handle(w, step)) else 0) + Wait(Next(w, step), target) <= Wait(w, target)
    ensures target in EpochsOf(Next(w, step).residents)
  {
    var handled := Handle(w, step);
    HandledLawful(w, step);
    HandleKeepsEpochs(w, step);
    if Schedules(w, step) {
      ScheduledEpochs(handled);
      if FreeSlots(handled.residents) == 1 {
        SchedulingApproaches(handled, target);
      } else {
        assert Scheduled(handled) == Progress(handled.residents, 0, handled.recoveryAfter);
      }
    }
  }

  /** Each admission of another session uses up one of the sessions ahead of `target`. */
  lemma {:induction false} AdmissionsShorten(w: World, steps: seq<Step>, target: nat)
    requires Lawful(w.residents) && target in EpochsOf(w.residents) && PassedOver(w, steps, target)
    ensures Admissions(w, steps) + Wait(After(w, steps), target) <= Wait(w, target)
    decreases |steps|
  {
    if steps != [] {
      AdmissionStep(w, steps[0], target);
      NextLawful(w, steps[0]);
      AdmissionsShorten(Next(w, steps[0]), steps[1..], target);
    }
  }

  /** With n resident sessions, a willing one is passed over at most n - 1 times. */
  lemma RotationIsFair(w: World, steps: seq<Step>, target: nat)
    requires Lawful(w.residents) && target in EpochsOf(w.residents) && PassedOver(w, steps, target)
    ensures Admissions(w, steps) <= |EpochsOf(w.residents)| - 1
  {
    AdmissionsShorten(w, steps, target);
    RotationHas(w, target);
    DistanceFound(Rotation(w.residents, w.recoveryAfter), target);
  }
}
