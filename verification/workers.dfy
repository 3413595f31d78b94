/** The two workers' observable results: the producer computes the larger of
    the two integers it reads and exits with 10, the consumer reports the
    integer it reads and exits with 20. */
module Workers {
  import opened Bookkeeping
  import opened MonitorLoop

  /** A C `int` as the workers read and write it. */
  type Int32 = x: int | -0x8000_0000 <= x < 0x8000_0000

  /** Exit code of the producer worker. */
  const ProducerExit: ExitCode := 10

  /** Exit code of the consumer worker. */
  const ConsumerExit: ExitCode := 20

  /** The producer's computation: the larger of `a` and `b` (on equal inputs
      necessarily their common value). */
  function Max(a: Int32, b: Int32): (m: Int32)
    ensures m >= a && m >= b
    ensures m == a || m == b
  {
    if a > b then a else b
  }

  /** When the two workers (with distinct pids) are reaped with their normal
      exit codes, in either order, each slot records its worker's code, the
      count reaches two, and the monitor loop stops without another round. */
  lemma BothWorkersReaped(producer: int, consumer: int, producerFirst: bool, start: int, ticks: seq<Tick>)
    requires producer != consumer
    ensures var s := Forked(Forked(Initial(), 0, producer), 1, consumer);
      var p, c := Event(producer, Exited(ProducerExit)), Event(consumer, Exited(ConsumerExit));
      var r := Run(s, if producerFirst then [p, c] else [c, p]);
      r.status == [ProducerExit as int, ConsumerExit as int] && r.count == Slots &&
      Supervise(r, start, ticks) == Trace(r, AllExited, 0)
  {
  }
}
