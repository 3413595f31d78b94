/** The supervisor's child bookkeeping as a value: the pids of the two
    workers, their recorded exit statuses and the number of reaped children,
    together with the effect of one reaped termination event and of a batch
    of them. The imperative class in supervisor.dfy is proved against these
    functions. */
module Bookkeeping {

  /** Number of worker slots. */
  const Slots: nat := 2

  /** The status a slot holds while its child has not been reaped. */
  const NotReaped: int := -1

  /** A normal exit status: the low eight bits the child passed to exit. */
  type ExitCode = c: int | 0 <= c < 256

  /** The number of the signal that terminated a child (seven bits, never 0). */
  type SignalNumber = s: int | 1 <= s < 128 witness 1

  /** What the operating system reports about one child. `Neither` stands for
      a report that is neither a normal exit nor a termination by signal. */
  datatype Outcome = Exited(code: ExitCode) | Signaled(signal: SignalNumber) | Neither

  /** One termination event: the pid the reaper obtained and its outcome. */
  datatype Event = Event(pid: int, outcome: Outcome)

  /** The shared bookkeeping: child pids, per-slot exit status, reaped count. */
  datatype State = State(pids: seq<int>, status: seq<int>, count: int)

  predicate WellFormed(s: State)
  {
    |s.pids| == Slots && |s.status| == Slots
  }

  /** The state before any child is forked: pids zero, both statuses the
      sentinel, nothing reaped. */
  function Initial(): (s: State)
    ensures WellFormed(s) && s.count == 0
    ensures forall i :: 0 <= i < Slots ==> s.status[i] == NotReaped && s.pids[i] == 0
  {
    State([0, 0], [NotReaped, NotReaped], 0)
  }

  /** The state once `pid` has been stored as the pid of `slot`. */
  function Forked(s: State, slot: nat, pid: int): (r: State)
    requires WellFormed(s) && slot < Slots
    ensures WellFormed(r) && r.status == s.status && r.count == s.count
    ensures r.pids[slot] == pid
    ensures forall i :: 0 <= i < Slots && i != slot ==> r.pids[i] == s.pids[i]
  {
    s.(pids := s.pids[slot := pid])
  }

  /** The single integer the reaper derives from an outcome: the exit code
      when the child exited, otherwise the signal number when it was killed by
      a signal, otherwise the sentinel. */
  function Decode(o: Outcome): (r: int)
    ensures o.Exited? ==> r == o.code
    ensures o.Signaled? ==> r == o.signal
    ensures r == NotReaped <==> o.Neither?
  {
    match o
    case Exited(c) => c
    case Signaled(sig) => sig
    case Neither => NotReaped
  }

  /** Slot `i` is the first slot whose pid is `pid`. */
  predicate IsFirstSlot(pids: seq<int>, pid: int, i: int)
  {
    0 <= i < |pids| && pids[i] == pid && forall j :: 0 <= j < i ==> pids[j] != pid
  }

  /** The index of the first slot holding `pid`, or |pids| when none does. */
  function FirstMatch(pids: seq<int>, pid: int): (k: nat)
    ensures k <= |pids|
    ensures k < |pids| ==> IsFirstSlot(pids, pid, k)
    ensures k == |pids| <==> pid !in pids
  {
    if pids == [] then 0
    else if pids[0] == pid then 0
    else 1 + FirstMatch(pids[1..], pid)
  }

  /** The effect of one reaped event: the decoded status is written into the
      first slot whose pid matches, and the count goes up whether or not a
      slot matched. */
  function Step(s: State, e: Event): (r: State)
    requires WellFormed(s)
    ensures WellFormed(r) && r.pids == s.pids
    ensures r.count == s.count + 1
    ensures forall i :: 0 <= i < Slots ==>
      r.status[i] == if IsFirstSlot(s.pids, e.pid, i) then Decode(e.outcome) else s.status[i]
    ensures e.pid !in s.pids ==> r.status == s.status
  {
    var k := FirstMatch(s.pids, e.pid);
    var status := if k < Slots then s.status[k := Decode(e.outcome)] else s.status;
    State(s.pids, status, s.count + 1)
  }

  /** The effect of a batch of events, applied in order. */
  function Run(s: State, events: seq<Event>): (r: State)
    requires WellFormed(s)
    ensures WellFormed(r) && r.pids == s.pids
    ensures r.count == s.count + |events|
    decreases |events|
  {
    if events == [] then s
    else Step(Run(s, events[..|events| - 1]), events[|events| - 1])
  }

  /** Applying two batches one after the other is applying their concatenation. */
  lemma {:induction false} RunAppend(s: State, a: seq<Event>, b: seq<Event>)
    requires WellFormed(s)
    ensures Run(s, a + b) == Run(Run(s, a), b)
    decreases |b|
  {
    if b == [] {
      assert a + b == a;
    } else {
      var b' := b[..|b| - 1];
      assert (a + b)[..|a + b| - 1] == a + b';
      assert (a + b)[|a + b| - 1] == b[|b| - 1];
      RunAppend(s, a, b');
    }
  }

  /** A slot whose pid no event carries keeps its status through a batch. */
  lemma {:induction false} RunUntouchedSlot(s: State, events: seq<Event>, k: nat)
    requires WellFormed(s) && k < Slots
    requires forall i :: 0 <= i < |events| ==> events[i].pid != s.pids[k]
    ensures Run(s, events).status[k] == s.status[k]
    decreases |events|
  {
    if events != [] {
      RunUntouchedSlot(s, events[..|events| - 1], k);
    }
  }

  /** The number of slots no longer at the sentinel. */
  function Recorded(status: seq<int>): (n: nat)
    ensures n <= |status|
    ensures n == 0 <==> forall i :: 0 <= i < |status| ==> status[i] == NotReaped
  {
    if status == [] then 0
    else (if status[0] != NotReaped then 1 else 0) + Recorded(status[1..])
  }

  /** Recording a status in a slot still at the sentinel adds one recorded slot. */
  lemma {:induction false} RecordedUpdate(status: seq<int>, k: nat, v: int)
    requires k < |status| && status[k] == NotReaped && v != NotReaped
    ensures Recorded(status[k := v]) == Recorded(status) + 1
  {
    if k > 0 {
      assert status[k := v][1..] == status[1..][k - 1 := v];
      RecordedUpdate(status[1..], k - 1, v);
    }
  }

  /** No two events of a batch carry the same pid. */
  predicate DistinctPids(events: seq<Event>)
  {
    forall i, j :: 0 <= i < j < |events| ==> events[i].pid != events[j].pid
  }

  /** Every event of the batch belongs to a known child, ended by an exit or
      a signal, and its slot has not been reaped yet in `s`. */
  predicate FreshReaps(s: State, events: seq<Event>)
    requires WellFormed(s)
  {
    forall i :: 0 <= i < |events| ==>
      events[i].pid in s.pids && !events[i].outcome.Neither? &&
      s.status[FirstMatch(s.pids, events[i].pid)] == NotReaped
  }

  /** When every event reaps a distinct known child that has not been reaped
      yet, the reaped count stays equal to the number of recorded slots, and
      so never exceeds the number of slots. */
  lemma {:induction false} CountMatchesRecorded(s: State, events: seq<Event>)
    requires WellFormed(s) && s.count == Recorded(s.status)
    requires DistinctPids(events) && FreshReaps(s, events)
    ensures Run(s, events).count == Recorded(Run(s, events).status)
    ensures Run(s, events).count <= Slots
    decreases |events|
  {
    if events != [] {
      var n := |events| - 1;
      var before, e := events[..n], events[n];
      CountMatchesRecorded(s, before);
      var mid := Run(s, before);
      var k := FirstMatch(s.pids, e.pid);
      assert s.pids[k] == e.pid;
      RunUntouchedSlot(s, before, k);
      assert mid.status[k] == NotReaped;
      assert FirstMatch(mid.pids, e.pid) == k;
      assert Step(mid, e).status == mid.status[k := Decode(e.outcome)];
      RecordedUpdate(mid.status, k, Decode(e.outcome));
    }
  }

  /** From the forked state, a batch of distinct known children's exits or
      signals leaves the count equal to the number of recorded slots. */
  lemma {:induction false} ReapedCountFromStart(pids: seq<int>, events: seq<Event>)
    requires |pids| == Slots
    requires DistinctPids(events)
    requires forall i :: 0 <= i < |events| ==> events[i].pid in pids && !events[i].outcome.Neither?
    ensures var r := Run(Initial().(pids := pids), events);
      r.count == Recorded(r.status) && r.count <= Slots
  {
    var s := Initial().(pids := pids);
    assert Recorded(s.status) == 0;
    forall i | 0 <= i < |events|
      ensures s.status[FirstMatch(s.pids, events[i].pid)] == NotReaped
    {
      var k := FirstMatch(s.pids, events[i].pid);
      assert k < Slots;
    }
    CountMatchesRecorded(s, events);
  }
}
