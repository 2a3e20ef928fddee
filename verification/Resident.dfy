/**
 One resident session with its recovery state changed in place: what a scan of the scheduler, each
 outcome of a read, an older page and a snapshot do to it.
 */
module Residents {
  import opened Wrappers
  import opened Completion
  import opened RecoveryStates
  import Scheduler

  type Task = Scheduler.Task

  class Resident {
    const epoch: nat
    const recovery: RecoveryState
    var catalog: Directory
    var tasks: seq<Task>

    /** The session as a value. */
    ghost function View(): Scheduler.Session
      reads this, recovery
    {
      Scheduler.Session(epoch, catalog, recovery.View(), tasks)
    }

    constructor (epoch: nat)
      ensures View() == Scheduler.Session(epoch, Unpublished, Fresh, []) && fresh(recovery)
    {
      this.epoch := epoch;
      recovery := new RecoveryState();
      catalog, tasks := Unpublished, [];
    }

    /** Takes a finished read off the list. */
    method FinishTurn(seqNo: nat)
      modifies `tasks
      ensures tasks == Scheduler.FinishTurn(old(tasks), seqNo)
    {
      var kept := [];
      assert tasks[0..] == tasks;
      for i := 0 to |tasks|
        invariant kept + Scheduler.FinishTurn(tasks[i..], seqNo) == Scheduler.FinishTurn(tasks, seqNo)
      {
        assert tasks[i..][1..] == tasks[i + 1..];
        if tasks[i] != Scheduler.TurnTask(seqNo) {
          kept := kept + [tasks[i]];
        }
      }
      tasks := kept;
    }

    method FinishHistory()
      modifies `tasks
      ensures tasks == Scheduler.FinishHistory(old(tasks))
    {
      var kept := [];
      assert tasks[0..] == tasks;
      for i := 0 to |tasks|
        invariant kept + Scheduler.FinishHistory(tasks[i..]) == Scheduler.FinishHistory(tasks)
      {
        assert tasks[i..][1..] == tasks[i + 1..];
        if !tasks[i].HistoryTask? {
          kept := kept + [tasks[i]];
        }
      }
      tasks := kept;
    }

    /** Applies the directory again with the room there is, and starts at most one read. */
    method Recover(limit: nat, now: Instant) returns (started: bool)
      modifies this, recovery
      ensures View() == Scheduler.StartRead(
                          old(View()).(recovery := old(View()).recovery.Discover(old(View()).catalog, limit)), now)
      ensures started <==> |tasks| > |old(tasks)|
    {
      recovery.Discover(catalog, limit);
      var running := exists i :: 0 <= i < |tasks| && tasks[i].HistoryTask?;
      if !running && recovery.historyStatus.Some? && recovery.historyStatus.value.IsReady(now) {
        recovery.historyStatus := Some(Fetching);
        tasks := tasks + [Scheduler.HistoryTask(recovery.gapThrough)];
        return true;
      }
      var ready := recovery.Ready(now);
      if ready.None? {
        return false;
      }
      recovery.Record(ready.value.seqNo, Fetching);
      tasks := tasks + [Scheduler.TurnTask(ready.value.seqNo)];
      return true;
    }

    /** Settles one recovered completion. */
    method OnRecovered(k: nat, outcome: Scheduler.TurnOutcome, now: Instant)
      modifies this, recovery
      ensures View() == Scheduler.OnRecovered(old(View()), k, outcome, now)
    {
      FinishTurn(k);
      if k !in recovery.entries {
        return;
      }
      match outcome {
        case BodyComplete(placed, disordered) =>
          if placed {
            recovery.Record(k, Complete);
          } else {
            var _ := recovery.RetryRetained(k, catalog.retainedFrom, now);
          }
          if disordered && recovery.historyStatus.None? {
            recovery.historyStatus := Some(Pending);
          }
        case BodyPartial =>
          recovery.Record(k, Partial);
        case BodyUnavailable =>
          recovery.Record(k, Unavailable);
        case BodyPending =>
          var _ := recovery.RetryRetained(k, catalog.retainedFrom, now);
        case BodyFailed =>
          var _ := recovery.RetryRetained(k, catalog.retainedFrom, now);
      }
    }

    method OnHistoryRecovered(through: nat, outcome: Scheduler.HistoryOutcome, now: Instant)
      modifies this, recovery
      ensures View() == Scheduler.OnHistoryRecovered(old(View()), through, outcome, now)
    {
      FinishHistory();
      var superseded := through != recovery.gapThrough;
      match outcome {
        case TooLarge =>
          recovery.historyStatus := Some(Exhausted);
        case HistoryFailed =>
          recovery.RetryHistory(now);
        case Page(covered) =>
          recovery.CoverHistory(covered, true);
          if superseded {
            recovery.historyStatus := Some(Pending);
          } else {
            var settled := recovery.SettleHistoryGap();
            if settled {
              recovery.RetryFailed();
            } else {
              recovery.historyStatus := Some(Exhausted);
            }
          }
      }
    }

    /** A page loaded for reading; it may close an open gap, and the scheduler then runs. */
    method OnOlderPage(covered: Coverage) returns (closed: bool)
      modifies this, recovery
      ensures View() == Scheduler.OnOlderPage(old(View()), covered)
      ensures closed <==> Scheduler.ClosesGap(old(View()), covered)
    {
      if recovery.historyCoverage.Some? {
        var known := recovery.historyCoverage.value;
        if !known.IsComplete() && !known.SamePin(covered) {
          return false;
        }
      }
      recovery.CoverHistory(covered, false);
      closed := false;
      if recovery.gapThrough > recovery.settledThrough {
        closed := recovery.SettleHistoryGap();
      }
    }

    /** A snapshot, with the room the other sessions leave. */
    method OnSnapshot(revision: nat, directory: Directory, limit: nat) returns (taken: bool)
      modifies this, recovery
      ensures taken <==> old(View()).recovery.revision < revision
      ensures View() == if !taken then old(View())
                        else old(View()).(catalog := directory,
                                          recovery := old(View()).recovery.(revision := revision)
                                                      .Discover(directory, limit))
    {
      taken := recovery.AcceptRevision(revision);
      if taken {
        catalog := directory;
        recovery.Discover(directory, limit);
      }
    }
  }
}
