# Supervisor bookkeeping model

This project models the child-tracking core of a small process supervisor
written in C (`main.c`). The supervisor forks two workers: a producer that
reads two integers from a pipe and writes their maximum (exit code 10), and a
consumer that reads that maximum and logs it (exit code 20). The supervisor
keeps three globals: `child_pids[2]`, `child_exit_status[2]` (initially the
sentinel -1) and `child_exit_count`. A `SIGCHLD` handler reaps every
terminated child. It decodes each child's status to one integer, stores it in
the first slot whose pid matches and increments the count. A monitor loop runs
while fewer than two children are reaped. On the first clock reading more
than 30 seconds after the start, it kills every slot still at -1 and leaves
the loop.

Files:

- `bookkeeping.dfy` (module `Bookkeeping`) models the bookkeeping as a value
  (`State`). It defines one reaped event (`Step`), a batch of events (`Run`)
  and the lemmas about them.
- `monitor_loop.dfy` (module `MonitorLoop`) models the monitor loop as a
  function (`Supervise`) of a sequence of rounds (`Tick`). Each round carries
  the batch reaped during that round's sleep and the clock reading taken
  after it. The module also holds the timeout kill selection and the lemmas
  about how the loop stops.
- `supervisor.dfy` (module `Supervisor`) holds the class `Daemon`. Its two
  arrays and counter are updated in place by the C code's own loops: the reap
  loop with its first-match `break`, the kill-selection loop and the monitor
  loop with its `break`. Each method is proved against the functions above.
- `workers.dfy` (module `Workers`) holds the producer's `max`, the workers'
  exit codes and a scenario lemma for a run where both workers complete.

Modelling choices:

- Asynchronous signal delivery becomes a sequence of events applied one at
  a time.
- `waitpid`'s raw status becomes the tagged `Outcome`: `Exited(code)`,
  `Signaled(signal)` or `Neither`. Exit codes range over 0..255 and signal
  numbers over 1..127, the widths of the wait-status fields.
- The clock becomes the `now` field of each tick.
- `kill` becomes the returned sequence of slot indices. The process killed
  for slot `i` is `childPids[i]`.
- One might expect the reaped count always to equal the number of recorded
  slots. The code does not guarantee that. It counts every reaped pid,
  including one that matches no slot. It also stores -1 for an outcome that
  is neither an exit nor a signal. The model follows the code. The equality
  is proved only under its hypotheses: distinct, known, not-yet-reaped pids,
  each ended by an exit or a signal (`CountMatchesRecorded`).
- The decoded status does not keep the tag. A child that exited with code 9
  and one killed by signal 9 record the same value, as in the code.

## Model

| member | source | states |
|---|---|---|
| Bookkeeping.Initial | main.c:18-20 | Before any fork, both statuses are the sentinel -1, the count is 0 and the pids are 0 (zero-initialised globals). |
| Bookkeeping.Forked | main.c:157 | Storing a fork's pid in a slot sets that slot's pid and changes no other pid, no status and not the count (also main.c:191). |
| Bookkeeping.Decode | main.c:52-62 | The decoded status is the exit code for a normal exit and the signal number for a signal death. It is the sentinel -1 exactly when neither applies. |
| Bookkeeping.FirstMatch | main.c:64-69 | The slot search returns the first slot holding the pid: no earlier slot holds it. It returns the slot count exactly when no slot holds the pid. |
| Bookkeeping.Step | main.c:51-73 | One event raises the count by exactly one, matched or not. Only the first slot whose pid equals the event's pid takes the decoded status; every other slot is unchanged, and an unknown pid changes no slot. |
| Bookkeeping.Run | main.c:50-74 | A batch of n events raises the count by exactly n and never changes the pids. |
| Bookkeeping.RunAppend | main.c:50-74 | Reaping two batches one after the other has the same effect as reaping their concatenation, so splitting deliveries into handler invocations does not matter. |
| Bookkeeping.RunUntouchedSlot | main.c:64-69 | A slot whose pid no event of a batch carries keeps its status through the batch. |
| Bookkeeping.RecordedUpdate | main.c:66 | Writing a non-sentinel status into a slot still at the sentinel adds exactly one recorded slot. |
| Bookkeeping.CountMatchesRecorded | main.c:64-73 | Take a state whose count equals its number of recorded slots. Reap a batch of distinct pids, each known, each not yet reaped and each ended by an exit or a signal. Afterwards the count still equals the number of recorded slots and is at most 2. |
| Bookkeeping.ReapedCountFromStart | main.c:18-20 | Start from the initial statuses with any pids. After a batch of distinct known pids, each ended by an exit or a signal, the count equals the number of slots no longer at -1 and is at most 2. |
| MonitorLoop.KillSelection | main.c:239-247 | The kill selection contains exactly the slots whose status is still -1, in increasing order. Slots already recorded are never killed. |
| MonitorLoop.Supervise | main.c:230-258 | The loop never runs more rounds than there are clock readings. It leaves the pids unchanged. |
| MonitorLoop.SuperviseReplays | main.c:230-236 | The state the loop leaves is the reap of exactly the batches of the rounds it ran. Every round began with fewer than two children reaped. |
| MonitorLoop.SuperviseStops | main.c:230-258 | Every round before the last read an on-time clock. An all-exited stop has a count of at least 2. A timeout happens on the first reading strictly more than 30 after the start, ends the loop and kills exactly the slots still at -1. Otherwise the loop is still waiting after the last reading, with no late reading and fewer than two children reaped. |
| MonitorLoop.OnTimeNeverKills | main.c:236-247 | If no clock reading is more than 30 after the start, the loop never takes the timeout branch. |
| Supervisor.Daemon.constructor | main.c:18-20 | The fresh bookkeeping arrays hold the initial state: pids 0, statuses -1, count 0. |
| Supervisor.Daemon.RecordFork | main.c:157 | Assigning a fork's pid to a slot leaves the bookkeeping equal to Forked of the old one (also main.c:191). |
| Supervisor.Daemon.HandleSigchld | main.c:46-75 | The in-place reap loop, with its first-match break, leaves the arrays and count equal to Run of the old state over the batch. |
| Supervisor.Daemon.SelectKills | main.c:239-247 | The kill loop returns exactly the slots whose status array entry is -1, in slot order. |
| Supervisor.Daemon.Monitor | main.c:227-259 | The imperative monitor loop, with its break on timeout, ends in the same state, verdict and round count as Supervise. |
| Workers.Max | main.c:176 | The producer's result is at least each input and equal to one of them, hence their common value when they are equal. |
| Workers.BothWorkersReaped | main.c:186-214 | Take distinct pids reaped with exit codes 10 and 20, in either order. The slots then hold 10 and 20, the count is 2 and the monitor loop stops at once with no kill. |

## Left out

- Daemonization (`become_daemon`: fork, setsid, chdir, umask, descriptor closing and redirection) is operating-system process plumbing.
- Pipe I/O is a filesystem and inter-process side effect: FIFO creation, open/read/write, the `usleep` polling reads and unlink. The workers' results are modelled only as `Max` and their exit codes.
- Logging (`log_message`, `ctime`, `snprintf` formatting) and the final status report, which re-applies `WEXITSTATUS` to already-decoded values (main.c:249-254), are output only.
- Signal installation and `daemon_signal_handler` (SIGTERM/SIGHUP) are not modelled. Preemptive delivery is replaced by batches: the batch reaped during each round's sleep is applied before that round's clock reading. A reap during the kill loop itself is not represented.
- The race between a forced kill and the reaper before the final report exists only under real concurrency.
- `time` and `sleep` become the clock value carried by each tick. Rounds are finite, so the model's loop reports `StillWaiting` when the readings run out, whereas the real loop would keep polling.
- The `WIFEXITED`/`WEXITSTATUS`/`WTERMSIG` bit encoding of the wait status is replaced by the tagged `Outcome`.
- Argument-count checking and `atoi` parsing of the two inputs are not modelled.
