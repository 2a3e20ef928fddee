/**
 The scheduler conserves work: it leaves a slot free only when no session has a read it could start.
 Scanning one session can still change another, which gives up an identity, but never one that was
 scanned in vain before.
 */
module SchedulerWork {
  import opened Wrappers
  import opened Completion
  import opened Scheduler
  import opened SchedulerLaws
  import opened SchedulerFairness

  /** No identity is due, and the history is not due either unless its read runs. */
  predicate Idle(s: Session, now: Instant) {
    s.recovery.Ready(now).None? && (s.HistoryRunning() || !s.recovery.HistoryDue(now))
  }

  /** The sessions scanned so far are idle. */
  ghost predicate AllIdle(residents: seq<Session>, scanned: set<nat>, now: Instant) {
    forall i | 0 <= i < |residents| && residents[i].epoch in scanned :: Idle(residents[i], now)
  }

  function Members(order: seq<nat>): set<nat> {
    set e | e in order
  }

  /** An idle session has nothing to give up for another. */
  lemma IdleKeepsItsOwn(s: Session, now: Instant)
    requires Idle(s, now)
    ensures s.recovery.Unstarted() == {}
  {
    assert s.recovery.Unstarted() <= s.recovery.ReadyKeys(now);
  }

  lemma MakeRoomIdles(residents: seq<Session>, i: nat, scanned: set<nat>, now: Instant)
    requires i < |residents| && AllIdle(residents, scanned, now)
    ensures AllIdle(MakeRoom(residents, i, now).0, scanned, now)
    ensures SameEpochs(MakeRoom(residents, i, now).0, residents)
  {
    hide Idle;
    var j := Donor(residents, residents[i].epoch);
    if j < |residents| && residents[j].epoch in scanned {
      IdleKeepsItsOwn(residents[j], now);
    }
  }

  /** A scan that starts nothing leaves its session idle. */
  lemma StartReadIdles(s: Session, now: Instant)
    requires |StartRead(s, now).tasks| <= |s.tasks|
    ensures StartRead(s, now) == s && Idle(s, now)
  {
  }

  lemma ScanIdles(residents: seq<Session>, epoch: nat, scanned: set<nat>, now: Instant)
    requires Distinct(residents) && AllIdle(residents, scanned, now)
    requires !RecoverResident(residents, epoch, now).1
    ensures var after := RecoverResident(residents, epoch, now).0;
            AllIdle(after, scanned + {epoch}, now) && SameEpochs(after, residents)
  {
    var i := Position(residents, epoch);
    if i < |residents| {
      var (roomy, limit) := MakeRoom(residents, i, now);
      MakeRoomIdles(residents, i, scanned, now);
      StartReadIdles(roomy[i].(recovery := roomy[i].recovery.Discover(roomy[i].catalog, limit)), now);
    }
  }

  lemma {:induction false} PassSpends(p: Progress, order: seq<nat>, now: Instant)
    ensures Pass(p, order, now).slots <= p.slots
    decreases |order|
  {
    if order != [] && p.slots != 0 {
      var (residents, started) := RecoverResident(p.residents, order[0], now);
      PassSpends(if started then Progress(residents, p.slots - 1, Some(order[0])) else p.(residents := residents),
                 order[1..], now);
    }
  }

  /** A pass that starts nothing leaves every session it scans idle. */
  lemma {:induction false} PassIdles(p: Progress, order: seq<nat>, scanned: set<nat>, now: Instant)
    requires p.slots != 0 && Distinct(p.residents) && AllIdle(p.residents, scanned, now)
    requires Pass(p, order, now).slots == p.slots
    ensures AllIdle(Pass(p, order, now).residents, scanned + Members(order), now)
    decreases |order|
  {
    if order == [] {
      assert scanned + Members(order) == scanned;
    } else {
      var (residents, started) := RecoverResident(p.residents, order[0], now);
      if started {
        PassSpends(Progress(residents, p.slots - 1, Some(order[0])), order[1..], now);
      } else {
        ScanIdles(p.residents, order[0], scanned, now);
        PassIdles(p.(residents := residents), order[1..], scanned + {order[0]}, now);
        assert scanned + {order[0]} + Members(order[1..]) == scanned + Members(order);
      }
    }
  }

  lemma AllScanned(w: World, i: nat)
    requires Lawful(w.residents) && FreeSlots(RecoverCompletions(w).residents) > 0
    requires i < |RecoverCompletions(w).residents|
    ensures Idle(RecoverCompletions(w).residents[i], w.now)
  {
    hide Rotation;
    hide Lawful;
    hide Idle;
    hide InFlight;
    var after := RecoverCompletions(w).residents;
    var order := Rotation(w.residents, w.recoveryAfter);
    ScheduledLawful(w);
    ScheduledIsOnePass(w);
    LawfulIsDistinct(w.residents);
    PassIdles(Progress(w.residents, 1, w.recoveryAfter), order, {}, w.now);
    ScheduledEpochs(w);
    assert after[i] in after;
    RotationHas(w, after[i].epoch);
  }

  lemma LawfulIsDistinct(residents: seq<Session>)
    requires Lawful(residents)
    ensures Distinct(residents)
  {
  }

  /** After a scheduling call, a free slot means that no session has an identity or a history that is
      due, however identities moved between the sessions during the call. */
  lemma FreeSlotMeansIdle(w: World, i: nat, k: nat)
    requires Lawful(w.residents) && FreeSlots(RecoverCompletions(w).residents) > 0
    requires i < |RecoverCompletions(w).residents|
    ensures var s := RecoverCompletions(w).residents[i];
            && (k in s.recovery.entries ==> !s.recovery.entries[k].status.IsReady(w.now))
            && (s.recovery.HistoryDue(w.now) ==> s.HistoryRunning())
  {
    hide RecoverCompletions;
    AllScanned(w, i);
    var s := RecoverCompletions(w).residents[i];
    assert k in s.recovery.ReadyKeys(w.now) <==> k in s.recovery.entries && s.recovery.entries[k].status.IsReady(w.now);
  }

  /** In every reachable state that a scheduling step leads to: a read runs, or nothing is due. */
  lemma NothingWaits(steps: seq<Step>, step: Step, i: nat, k: nat)
    requires RunsFrom(Start, steps) && Enabled(After(Start, steps), step) && Schedules(After(Start, steps), step)
    requires i < |Next(After(Start, steps), step).residents|
    ensures var w := Next(After(Start, steps), step);
            var s := w.residents[i];
            InFlight(w.residents) == 0 ==>
              && (k in s.recovery.entries ==> !s.recovery.entries[k].status.IsReady(w.now))
              && !s.recovery.HistoryDue(w.now)
  {
    var handled := Handle(After(Start, steps), step);
    ReachableLawful(Start, steps);
    HandledLawful(After(Start, steps), step);
    var after := Next(After(Start, steps), step).residents;
    if InFlight(after) == 0 {
      FreeSlotMeansIdle(handled, i, k);
      SumsCover(after, i);
    }
  }
}
