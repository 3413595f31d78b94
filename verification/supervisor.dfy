/** The supervisor's mutable bookkeeping: two fixed-size arrays for the
    child pids and their exit statuses and a reaped-children counter, updated
    in place by the reaper and read by the monitor loop. Each method is
    proved against the value-level functions of Bookkeeping and MonitorLoop. */
module Supervisor {
  import opened Bookkeeping
  import opened MonitorLoop

  class Daemon {
    var childPids: array<int>
    var childExitStatus: array<int>
    var childExitCount: int

    ghost predicate Valid()
      reads this
    {
      childPids.Length == Slots && childExitStatus.Length == Slots &&
      childPids != childExitStatus
    }

    /** The bookkeeping as a value. */
    ghost function Model(): (s: State)
      reads this, childPids, childExitStatus
      requires Valid()
      ensures WellFormed(s)
    {
      State(childPids[..], childExitStatus[..], childExitCount)
    }

    /** The globals before the first fork: pids zero, both statuses the
        sentinel, no child reaped. */
    constructor ()
      ensures Valid() && fresh(childPids) && fresh(childExitStatus)
      ensures Model() == Initial()
    {
      childPids := new int[Slots](_ => 0);
      childExitStatus := new int[Slots](_ => NotReaped);
      childExitCount := 0;
      new;
      assert childPids[..] == [0, 0];
      assert childExitStatus[..] == [NotReaped, NotReaped];
    }

    /** Stores the pid a fork returned as the pid of `slot`. */
    method RecordFork(slot: nat, pid: int)
      requires Valid() && slot < Slots
      modifies childPids
      ensures Valid() && Model() == Forked(old(Model()), slot, pid)
    {
      childPids[slot] := pid;
    }

    /** The reaper: for each terminated child of the batch, in order, decode
        its outcome, store it in the first slot whose pid matches, and count
        the child as reaped. */
    method HandleSigchld(events: seq<Event>)
      requires Valid()
      modifies this`childExitCount, childExitStatus
      ensures Valid() && Model() == Run(old(Model()), events)
    {
      var n := 0;
      while n < |events|
        invariant 0 <= n <= |events|
        invariant Valid()
        invariant Model() == Run(old(Model()), events[..n])
      {
        var e := events[n];
        ghost var before := Model();
        var exitStatus := NotReaped;
        if e.outcome.Exited? {
          exitStatus := e.outcome.code;
        } else if e.outcome.Signaled? {
          exitStatus := e.outcome.signal;
        }
        assert exitStatus == Decode(e.outcome);
        for i := 0 to Slots
          invariant forall j :: 0 <= j < i ==> childPids[j] != e.pid
          invariant childExitStatus[..] == before.status
        {
          if childPids[i] == e.pid {
            childExitStatus[i] := exitStatus;
            assert IsFirstSlot(before.pids, e.pid, i);
            break;
          }
        }
        childExitCount := childExitCount + 1;
        assert events[..n + 1][..n] == events[..n];
        n := n + 1;
      }
      assert events[..n] == events;
    }

    /** The slots the timeout branch kills: those whose status is still the
        sentinel, in slot order. */
    method SelectKills() returns (kills: seq<nat>)
      requires Valid()
      ensures kills == KillSelection(childExitStatus[..])
      ensures forall i: int :: i in kills <==> 0 <= i < Slots && childExitStatus[i] == NotReaped
    {
      kills := [];
      for i := 0 to Slots
        invariant kills == KillSelection(childExitStatus[..i])
      {
        assert childExitStatus[..i + 1][..i] == childExitStatus[..i];
        if childExitStatus[i] == NotReaped {
          kills := kills + [i];
        }
      }
      assert childExitStatus[..Slots] == childExitStatus[..];
    }

    /** The monitor loop, started at clock value `start`. Each round the
        reaper records the batch of that round's tick and the clock reads the
        tick's time; the loop runs while fewer than two children are reaped
        and breaks out on the first late reading after selecting the kills. */
    method Monitor(start: int, ticks: seq<Tick>) returns (verdict: Verdict, rounds: nat)
      requires Valid()
      modifies this`childExitCount, childExitStatus
      ensures Valid()
      ensures var t := Supervise(old(Model()), start, ticks);
        Model() == t.final && verdict == t.verdict && rounds == t.rounds
    {
      verdict, rounds := AllExited, 0;
      while childExitCount < Slots
        invariant Valid() && rounds <= |ticks|
        invariant var t0 := Supervise(old(Model()), start, ticks);
          var t := Supervise(Model(), start, ticks[rounds..]);
          t.final == t0.final && t.verdict == t0.verdict && rounds + t.rounds == t0.rounds
        invariant verdict == AllExited
        decreases |ticks| - rounds
      {
        if rounds == |ticks| {
          verdict := StillWaiting;
          break;
        }
        var tick := ticks[rounds];
        assert ticks[rounds..][0] == tick && ticks[rounds..][1..] == ticks[rounds + 1..];
        HandleSigchld(tick.reaped);
        rounds := rounds + 1;
        if tick.now - start > Timeout {
          var kills := SelectKills();
          verdict := TimedOut(kills);
          break;
        }
      }
    }
  }
}
