/** The supervisor's monitor loop as a function of the clock: while fewer
    than two children have been reaped it waits one round, during which the
    reaper may record a batch of terminations, then reads the clock; on the
    first reading more than the timeout past the start it selects every slot
    still at the sentinel for a forced kill and leaves the loop. */
module MonitorLoop {
  import opened Bookkeeping

  /** The deadline, in seconds after the start of monitoring. */
  const Timeout: int := 30

  /** One round of the loop: the events reaped while it slept and the clock
      reading taken after the sleep. */
  datatype Tick = Tick(reaped: seq<Event>, now: int)

  /** How the loop ended: every child reaped, timed out with the slots it
      killed, or still waiting when the clock readings ran out. */
  datatype Verdict = AllExited | TimedOut(killed: seq<nat>) | StillWaiting

  /** The state the loop leaves, its verdict and the number of rounds it ran. */
  datatype Trace = Trace(final: State, verdict: Verdict, rounds: nat)

  /** A clock reading is past the deadline when strictly more than the
      timeout has elapsed since `start`. */
  predicate Late(start: int, now: int)
  {
    now - start > Timeout
  }

  /** The slots to kill on timeout: in increasing order, exactly the slots
      whose status is still the sentinel. */
  function KillSelection(status: seq<int>): (r: seq<nat>)
    ensures forall i: int :: i in r <==> 0 <= i < |status| && status[i] == NotReaped
    ensures forall a :: 0 <= a < |r| ==> r[a] < |status|
    ensures forall a, b :: 0 <= a < b < |r| ==> r[a] < r[b]
    decreases |status|
  {
    if status == [] then []
    else
      var n := |status| - 1;
      KillSelection(status[..n]) + if status[n] == NotReaped then [n] else []
  }

  /** All events of a sequence of rounds, in order. */
  function Reaped(ticks: seq<Tick>): (events: seq<Event>)
    decreases |ticks|
  {
    if ticks == [] then [] else Reaped(ticks[..|ticks| - 1]) + ticks[|ticks| - 1].reaped
  }

  /** The loop run from state `s` with monitoring started at `start`. */
  function Supervise(s: State, start: int, ticks: seq<Tick>): (t: Trace)
    requires WellFormed(s)
    ensures WellFormed(t.final) && t.final.pids == s.pids
    ensures t.rounds <= |ticks|
    decreases |ticks|
  {
    if s.count >= Slots then Trace(s, AllExited, 0)
    else if ticks == [] then Trace(s, StillWaiting, 0)
    else
      var s' := Run(s, ticks[0].reaped);
      if Late(start, ticks[0].now) then Trace(s', TimedOut(KillSelection(s'.status)), 1)
      else
        var t := Supervise(s', start, ticks[1..]);
        Trace(t.final, t.verdict, t.rounds + 1)
  }

  /** The state the loop leaves is the reap of every batch delivered in the
      rounds it ran, and it ran each of those rounds with fewer than two
      children reaped. */
  lemma {:induction false} SuperviseReplays(s: State, start: int, ticks: seq<Tick>)
    requires WellFormed(s)
    ensures var t := Supervise(s, start, ticks);
      t.final == Run(s, Reaped(ticks[..t.rounds])) &&
      forall j :: 0 <= j < t.rounds ==> Run(s, Reaped(ticks[..j])).count < Slots
    decreases |ticks|
  {
    var t := Supervise(s, start, ticks);
    assert ticks[..0] == [];
    if s.count < Slots && ticks != [] {
      var s' := Run(s, ticks[0].reaped);
      assert ticks[..1] == [ticks[0]];
      assert Reaped(ticks[..1]) == Reaped([]) + ticks[0].reaped == ticks[0].reaped;
      if !Late(start, ticks[0].now) {
        var rest := ticks[1..];
        var t' := Supervise(s', start, rest);
        SuperviseReplays(s', start, rest);
        forall j | 0 <= j <= t'.rounds
          ensures Run(s', Reaped(rest[..j])) == Run(s, Reaped(ticks[..j + 1]))
        {
          ReapedPrefix(ticks, j);
          RunAppend(s, ticks[0].reaped, Reaped(rest[..j]));
        }
        assert t.final == Run(s', Reaped(rest[..t'.rounds]));
        forall j | 0 <= j < t.rounds
          ensures Run(s, Reaped(ticks[..j])).count < Slots
        {
          if j > 0 {
            assert Run(s', Reaped(rest[..j - 1])).count < Slots;
          }
        }
      }
    }
  }

  /** The events of the first j + 1 rounds are those of the first round
      followed by those of the next j. */
  lemma {:induction false} ReapedPrefix(ticks: seq<Tick>, j: nat)
    requires j + 1 <= |ticks|
    ensures Reaped(ticks[..j + 1]) == ticks[0].reaped + Reaped(ticks[1..][..j])
    decreases j
  {
    if j == 0 {
      assert ticks[..1][..0] == [];
      assert ticks[1..][..0] == [];
    } else {
      ReapedPrefix(ticks, j - 1);
      assert ticks[..j + 1][..j] == ticks[..j];
      assert ticks[1..][..j][..j - 1] == ticks[1..][..j - 1];
    }
  }

  /** How the loop stops: it stops early only when two children are reaped;
      it times out exactly on the first late clock reading, killing exactly
      the slots still at the sentinel; without a late reading and without two
      reaped children it is still waiting after the last reading. */
  lemma {:induction false} SuperviseStops(s: State, start: int, ticks: seq<Tick>)
    requires WellFormed(s)
    ensures var t := Supervise(s, start, ticks);
      (forall j :: 0 <= j < t.rounds - 1 ==> !Late(start, ticks[j].now)) &&
      (t.verdict.AllExited? ==>
        t.final.count >= Slots && (t.rounds == 0 || !Late(start, ticks[t.rounds - 1].now))) &&
      (t.verdict.TimedOut? ==>
        0 < t.rounds && Late(start, ticks[t.rounds - 1].now) &&
        forall i: int :: i in t.verdict.killed <==> 0 <= i < Slots && t.final.status[i] == NotReaped) &&
      (t.verdict.StillWaiting? ==>
        t.rounds == |ticks| && t.final.count < Slots &&
        forall j :: 0 <= j < |ticks| ==> !Late(start, ticks[j].now))
    decreases |ticks|
  {
    if s.count < Slots && ticks != [] && !Late(start, ticks[0].now) {
      var s' := Run(s, ticks[0].reaped);
      SuperviseStops(s', start, ticks[1..]);
    }
  }

  /** A loop whose clock readings all stay within the deadline never kills. */
  lemma {:induction false} OnTimeNeverKills(s: State, start: int, ticks: seq<Tick>)
    requires WellFormed(s)
    requires forall j :: 0 <= j < |ticks| ==> !Late(start, ticks[j].now)
    ensures !Supervise(s, start, ticks).verdict.TimedOut?
    decreases |ticks|
  {
    if s.count < Slots && ticks != [] {
      OnTimeNeverKills(Run(s, ticks[0].reaped), start, ticks[1..]);
    }
  }
}
