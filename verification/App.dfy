/** The application's scheduling loops and handlers over its resident sessions. */
module Apps {
  import opened Wrappers
  import opened Completion
  import opened Scheduler
  import opened SchedulerLaws
  import opened Residents

  /** The sessions as values. */
  ghost function Views(residents: seq<Resident>): (sessions: seq<Session>)
    reads residents, set r | r in residents :: r.recovery
    ensures |sessions| == |residents|
    ensures forall i | 0 <= i < |residents| :: sessions[i] == residents[i].View()
  {
    seq(|residents|, i requires 0 <= i < |residents| reads residents, set r | r in residents :: r.recovery =>
      residents[i].View())
  }

  /** No two sessions share anything. */
  ghost predicate Separate(residents: seq<Resident>) {
    forall i, j | 0 <= i < j < |residents| ::
      residents[i] != residents[j] && residents[i].recovery != residents[j].recovery
  }

  class App {
    var residents: seq<Resident>
    var recoveryAfter: Option<nat>
    var now: Instant
    // the residents as values
    ghost var sessions: seq<Session>

    ghost function Recoveries(): set<object>
      reads this`residents
    {
      set r | r in residents :: r.recovery
    }

    /** Everything the sessions consist of. */
    ghost function Objects(): set<object>
      reads this`residents
    {
      Recoveries() + set r | r in residents
    }

    ghost predicate Mirrored()
      reads this`residents, this`sessions, Objects()
    {
      Separate(residents) && sessions == Views(residents)
    }

    ghost function View(): World
      reads this
    {
      World(sessions, recoveryAfter, now)
    }

    ghost predicate Valid()
      reads this, Objects()
    {
      Mirrored() && Lawful(sessions)
    }

    constructor ()
      ensures Valid() && View() == Start
    {
      residents, recoveryAfter, now, sessions := [], None, 0, [];
    }

    /** Where the session with `epoch` is, or the length. */
    method Find(epoch: nat) returns (i: nat)
      requires Mirrored()
      ensures |residents| == |sessions| && i == Position(sessions, epoch)
    {
      i := 0;
      assert sessions[0..] == sessions;
      while i < |residents| && residents[i].epoch != epoch
        invariant i <= |residents|
        invariant Position(sessions, epoch) == i + Position(sessions[i..], epoch)
      {
        assert sessions[i..][1..] == sessions[i + 1..];
        i := i + 1;
      }
    }

    method RecoveryCapacityFor(epoch: nat) returns (capacity: nat)
      requires Mirrored()
      ensures capacity == CapacityFor(sessions, epoch)
    {
      var other := 0;
      assert sessions[0..] == sessions;
      for i := 0 to |residents|
        invariant other + TrackedByOthers(sessions[i..], epoch) == TrackedByOthers(sessions, epoch)
      {
        assert sessions[i..][1..] == sessions[i + 1..];
        if residents[i].epoch != epoch {
          other := other + |residents[i].recovery.entries|;
        }
      }
      return Monus(IDENTITIES_TOTAL, other);
    }

    method ReadsInFlight() returns (count: nat)
      requires Mirrored()
      ensures count == InFlight(sessions)
    {
      count := 0;
      assert sessions[0..] == sessions;
      for i := 0 to |residents|
        invariant count + InFlight(sessions[i..]) == InFlight(sessions)
      {
        assert sessions[i..][1..] == sessions[i + 1..];
        count := count + |residents[i].tasks|;
      }
    }

    /** Nothing but the `i`-th session changed. */
    ghost method Changed(i: nat)
      requires i < |residents| == |sessions| && Separate(residents)
      requires forall j | 0 <= j < |residents| && j != i :: residents[j].View() == sessions[j]
      modifies `sessions
      ensures Mirrored() && sessions == old(sessions)[i := residents[i].View()]
    {
      sessions := sessions[i := residents[i].View()];
      assert forall j | 0 <= j < |residents| :: sessions[j] == residents[j].View();
    }

    /** Lets the first other session that can give up an unstarted identity do so. */
    method DeferAnother(epoch: nat) returns (deferred: bool)
      requires Mirrored()
      modifies `sessions, Recoveries()
      ensures Mirrored()
      ensures var was := old(sessions);
              var j := Donor(was, epoch);
              && (deferred <==> j < |was|)
              && sessions == if deferred then was[j := was[j].(recovery := was[j].recovery.DeferUnstarted())] else was
    {
      var i := 0;
      ghost var was := sessions;
      assert was[0..] == was;
      hide Views;
      while i < |residents|
        invariant i <= |residents| && Mirrored() && sessions == was
        invariant Donor(was, epoch) == i + Donor(was[i..], epoch)
      {
        DonorStep(was, i, epoch);
        if residents[i].epoch != epoch {
          assert residents[i].recovery.View() == was[i].recovery;
          deferred := residents[i].recovery.DeferUnstarted();
          Changed(i);
          if deferred {
            return;
          }
        }
        i := i + 1;
      }
      return false;
    }

    lemma DonorStep(was: seq<Session>, i: nat, epoch: nat)
      requires i < |was| && Donor(was, epoch) == i + Donor(was[i..], epoch)
      ensures if was[i].epoch != epoch && was[i].recovery.Unstarted() != {} then Donor(was, epoch) == i
              else Donor(was, epoch) == i + 1 + Donor(was[i + 1..], epoch)
    {
      assert was[i..][1..] == was[i + 1..];
    }

    /** The room there is for the `i`-th session, after another one gave up an identity if need be. */
    method MakeRoom(i: nat) returns (limit: nat)
      requires i < |residents| && Mirrored()
      modifies `sessions, Recoveries()
      ensures Mirrored() && (sessions, limit) == Scheduler.MakeRoom(old(sessions), i, now)
    {
      hide Views;
      hide CapacityFor;
      hide Donor;
      var recovery := residents[i].recovery;
      assert recovery.View() == sessions[i].recovery;
      limit := RecoveryCapacityFor(residents[i].epoch);
      var ready := recovery.Ready(now);
      if recovery.behind && limit < IDENTITIES_PER_LOAD && |recovery.entries| == limit && ready.None? {
        var deferred := DeferAnother(residents[i].epoch);
        if deferred {
          limit := limit + 1;
        }
      }
    }

    method RecoverResident(epoch: nat) returns (started: bool)
      requires Mirrored()
      modifies `sessions, Objects()
      ensures Mirrored()
      ensures (sessions, started) == Scheduler.RecoverResident(old(sessions), epoch, now)
    {
      hide Position;
      hide Scheduler.MakeRoom;
      hide StartRead;
      hide Views;
      hide State.Discover;
      var i := Find(epoch);
      if i == |residents| {
        return false;
      }
      var limit := MakeRoom(i);
      assert sessions[i] == residents[i].View();
      started := residents[i].Recover(limit, now);
      Changed(i);
    }

    /** Admits reads in rotation until the slots are used up or a whole round starts nothing. */
    method RecoverCompletions()
      requires Valid()
      modifies `recoveryAfter, `sessions, Objects()
      ensures Valid() && View() == Scheduler.RecoverCompletions(old(View()))
      ensures InFlight(sessions) <= CONCURRENT
    {
      hide Mirrored;
      hide Rounds;
      hide Lawful;
      hide InFlight;
      hide Rotation;
      hide Scheduler.RecoverCompletions;
      SchedulingIs(View());
      var order := Order();
      var busy := ReadsInFlight();
      var free: nat := CONCURRENT - busy;
      var slots := RunRounds(CONCURRENT, order, free);
    }

    /** Every session once, starting after the one served last. */
    method Order() returns (order: seq<nat>)
      requires Mirrored()
      ensures order == Rotation(sessions, recoveryAfter)
    {
      var all := set r | r in residents :: r.epoch;
      assert all == EpochsOf(sessions);
      var epochs := Ascending(all);
      var next := match recoveryAfter case None => 0 case Some(last) => PartitionPoint(epochs, last);
      return epochs[next..] + epochs[..next];
    }

    method RunRounds(rounds: nat, order: seq<nat>, free: nat) returns (slots: nat)
      requires Mirrored()
      modifies `recoveryAfter, `sessions, Objects()
      ensures Mirrored()
      ensures Progress(sessions, slots, recoveryAfter)
              == Rounds(rounds, Progress(old(sessions), free, old(recoveryAfter)), order, now)
    {
      slots := free;
      var n := rounds;
      hide Mirrored;
      hide Pass;
      while n != 0
        invariant 0 <= n <= rounds && Mirrored()
        invariant Rounds(n, Progress(sessions, slots, recoveryAfter), order, now)
               == Rounds(rounds, Progress(old(sessions), free, old(recoveryAfter)), order, now)
      {
        if slots == 0 {
          return;
        }
        var before := slots;
        slots := RunPass(order, slots);
        if slots == before {
          return;
        }
        n := n - 1;
      }
    }

    /** One scan over the rotation; it stops when no slot is left. */
    method RunPass(order: seq<nat>, free: nat) returns (slots: nat)
      requires Mirrored()
      modifies `recoveryAfter, `sessions, Objects()
      ensures Mirrored()
      ensures Progress(sessions, slots, recoveryAfter)
              == Pass(Progress(old(sessions), free, old(recoveryAfter)), order, now)
    {
      slots := free;
      var i := 0;
      assert order[0..] == order;
      hide Mirrored;
      while i < |order|
        invariant i <= |order| && Mirrored()
        invariant Pass(Progress(sessions, slots, recoveryAfter), order[i..], now)
               == Pass(Progress(old(sessions), free, old(recoveryAfter)), order, now)
      {
        if slots == 0 {
          return;
        }
        slots := Scan(order, i, slots);
        i := i + 1;
      }
    }

    /** Offers a slot to the `i`-th session of the rotation. */
    method Scan(order: seq<nat>, i: nat, free: nat) returns (slots: nat)
      requires i < |order| && free != 0 && Mirrored()
      modifies `recoveryAfter, `sessions, Objects()
      ensures Mirrored()
      ensures Pass(Progress(sessions, slots, recoveryAfter), order[i + 1..], now)
           == Pass(Progress(old(sessions), free, old(recoveryAfter)), order[i..], now)
    {
      hide Mirrored;
      hide Pass;
      hide Scheduler.RecoverResident;
      slots := free;
      PassScans(Progress(sessions, free, recoveryAfter), order, i, now);
      var started := RecoverResident(order[i]);
      if started {
        slots := slots - 1;
        Served(order[i]);
      }
    }

    method Served(epoch: nat)
      requires Mirrored()
      modifies `recoveryAfter
      ensures Mirrored() && recoveryAfter == Some(epoch)
    {
      recoveryAfter := Some(epoch);
    }

    // ---- events -------------------------------------------------------

    /** A session opens. */
    method Open(epoch: nat)
      requires Mirrored()
      modifies `residents, `sessions
      ensures Mirrored() && fresh(Objects() - old(Objects()))
      ensures sessions == old(sessions) + [Session(epoch, Unpublished, Fresh, [])]
    {
      var resident := new Resident(epoch);
      assert resident !in residents && forall r | r in residents :: r.recovery != resident.recovery;
      residents := residents + [resident];
      sessions := sessions + [resident.View()];
    }

    method Remove(i: nat)
      requires i < |residents| && Mirrored()
      modifies `residents, `sessions
      ensures Mirrored() && Objects() <= old(Objects())
      ensures sessions == old(sessions)[..i] + old(sessions)[i + 1..]
    {
      ghost var was := residents;
      residents := residents[..i] + residents[i + 1..];
      sessions := sessions[..i] + sessions[i + 1..];
      assert forall j | 0 <= j < |residents| :: residents[j] == was[if j < i then j else j + 1];
    }

    method MoveToFront(i: nat)
      requires i < |residents| && Mirrored()
      modifies `residents, `sessions
      ensures Mirrored() && Objects() <= old(Objects())
      ensures sessions == [old(sessions)[i]] + old(sessions)[..i] + old(sessions)[i + 1..]
    {
      hide Separate;
      MovedSeparate(residents, i);
      residents := [residents[i]] + residents[..i] + residents[i + 1..];
      sessions := [sessions[i]] + sessions[..i] + sessions[i + 1..];
      assert forall j | 0 <= j < |residents| :: sessions[j] == residents[j].View();
    }

    /** What happens inside the `i`-th session, and whether the scheduler runs. */
    method ActInside(i: nat, act: Scheduler.Act) returns (schedules: bool)
      requires i < |residents| && Mirrored() && !act.Closed? && !act.Selected?
      modifies `sessions, Objects()
      ensures Mirrored() && |old(sessions)| == |residents|
      ensures sessions == HandleAct(old(sessions), i, act, now)
      ensures schedules == SchedulesAfter(old(sessions)[i], act)
    {
      hide Views;
      hide CapacityFor;
      hide ClosesGap;
      hide Scheduler.OnRecovered;
      hide Scheduler.OnHistoryRecovered;
      hide Scheduler.OnOlderPage;
      hide State.RetryFailed;
      hide State.Discover;
      var resident := residents[i];
      assert resident.View() == sessions[i];
      schedules := true;
      match act {
        case Snapshot(revision, directory) =>
          var limit := RecoveryCapacityFor(resident.epoch);
          schedules := resident.OnSnapshot(revision, directory, limit);
        case Recovered(k, outcome) =>
          resident.OnRecovered(k, outcome, now);
        case HistoryRecovered(through, result) =>
          resident.OnHistoryRecovered(through, result, now);
        case UserRetry =>
          resident.recovery.RetryFailed();
        case OlderPage(covered) =>
          schedules := resident.OnOlderPage(covered);
      }
      Changed(i);
    }

    /** What happens to the `i`-th session before the scheduler runs, and whether it runs. */
    method Act(i: nat, act: Scheduler.Act) returns (schedules: bool)
      requires i < |residents| && Mirrored()
      modifies `residents, `sessions, Objects()
      ensures Mirrored() && Objects() <= old(Objects()) && |old(sessions)| == old(|residents|)
      ensures sessions == HandleAct(old(sessions), i, act, now)
      ensures schedules == SchedulesAfter(old(sessions)[i], act)
    {
      if act.Closed? {
        Remove(i);
        schedules := true;
      } else if act.Selected? {
        MoveToFront(i);
        schedules := false;
      } else {
        schedules := ActInside(i, act);
      }
    }

    /** Handles one event and, where the handler says so, schedules again. */
    method Dispatch(step: Step)
      requires Valid() && Enabled(View(), step)
      modifies this, Objects()
      ensures Valid() && View() == Next(old(View()), step)
    {
      hide Lawful;
      hide Mirrored;
      hide HandleAct;
      hide Allowed;
      hide SchedulesAfter;
      hide Scheduler.RecoverCompletions;
      HandledLawful(View(), step);
      var schedules := false;
      match step {
        case Opened(epoch) =>
          Open(epoch);
        case Tick(later) =>
          now := later;
          schedules := true;
        case On(epoch, act) =>
          var i := Find(epoch);
          if i < |residents| {
            schedules := Act(i, act);
          }
      }
      if schedules {
        RecoverCompletions();
      }
    }
  }

  /** The scheduling call is so many rounds with the slots that are free, and keeps the sessions lawful. */
  lemma SchedulingIs(w: World)
    requires Lawful(w.residents)
    ensures InFlight(w.residents) <= CONCURRENT
    ensures var p := Rounds(CONCURRENT, Progress(w.residents, CONCURRENT - InFlight(w.residents), w.recoveryAfter),
                            Rotation(w.residents, w.recoveryAfter), w.now);
            && Scheduler.RecoverCompletions(w) == w.(residents := p.residents, recoveryAfter := p.after)
            && Lawful(p.residents) && InFlight(p.residents) <= CONCURRENT
  {
    hide Rotation;
    hide Tracked;
    hide AllConsistent;
    hide Pass;
    ScheduledLawful(w);
  }

  lemma MovedSeparate(residents: seq<Resident>, i: nat)
    requires i < |residents| && Separate(residents)
    ensures Separate([residents[i]] + residents[..i] + residents[i + 1..])
  {
    var moved := [residents[i]] + residents[..i] + residents[i + 1..];
    assert forall j | 0 <= j < |moved| :: moved[j] == residents[if j == 0 then i else if j <= i then j - 1 else j];
  }

  lemma PassScans(p: Progress, order: seq<nat>, i: nat, now: Instant)
    requires i < |order| && p.slots != 0
    ensures var (residents, started) := RecoverResident(p.residents, order[i], now);
            Pass(p, order[i..], now)
            == Pass(if started then Progress(residents, p.slots - 1, Some(order[i])) else p.(residents := residents),
                    order[i + 1..], now)
  {
    assert order[i..][1..] == order[i + 1..];
  }
}
