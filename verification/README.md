# MLFQ scheduler core, modelled in Dafny

This project models the core of a discrete-time multi-level feedback queue
(MLFQ) scheduler simulation. The core has four parts:

- a growable circular FIFO queue (`ObjectQueue`);
- the job record (`Job`);
- a single CPU with a quantum countdown (`CPU`);
- the scheduler (`MFQ`): its constructor, `getJobs`, the console
  `runSimulation` loop, `tickSimulation`, `submitQueuedJob`, and the
  integer accumulators of `recordOutData`.

Modules follow the Java classes:

- `Wrappers`: `Option`. `None` stands in for Java's `null`.
- `Queues` (`queue.dfy`): `ObjectQueue`. The queue is an immutable datatype
  over a `seq<Option<T>>` that mirrors the Java `Object[]`, with `front`,
  `rear` and `count`. A ghost `Contents` gives the FIFO view.
  - The relocation loop of `resize` is also a method on an array,
    `Relocate`, which is proved equal to the functional `Resize`.
- `Jobs` (`job.dfy`): `Job`, with `MAX_QUEUE_LEVEL = 4`. The level is a
  subset type `0..3`.
- `Processor` (`cpu.dfy`): `CPU`. The quantum `Math.pow(2, level + 1)` is
  `Pow2(level + 1)`.
- `Scheduler` (`mfq.dfy`): the state `Mfq` (clock, arrival buffer, four
  level queues, CPU, accumulators) and one tick as a pure function.
  - A tick returns the new state together with the events it emits: arrivals
    and departures.
  - The integer accumulators are modelled exactly.
  - `Run` is `n` ticks.
  - `Simulate` is the `runSimulation` loop with a bound on the number of
    ticks.
- `SchedulerProofs` (`mfq_proofs.dfy`): properties that relate several steps.
  - Conservation of jobs, as a multiset of job identities (pid, arrival
    time, required time) over the buffer, the levels, the CPU and the
    departures.
  - A state invariant that every tick preserves.
  - Accounting of the accumulators over whole runs.
  - Inputs on which the loop never ends.
  - The tick's order-of-checks quirks.

The code's behaviour is reproduced as written. The points where the code does
something a reader might not expect:

- **The queue can shrink to 2 slots.** `remove` halves the capacity whenever
  fewer than a quarter of the slots are used. There is no floor at the
  initial 4 slots, so a queue can shrink to 2 (`Queues.ShrinkToTwo`).
- **The preempt check is a separate `if` after the finish check.** After a
  departure, the CPU is refilled and then the preempt check runs against the
  new job.
  - On a state with two jobs at level 0, the refilled job is demoted in the
    same tick (`SchedulerProofs.PreemptAfterRefill`).
  - No run from an input reaches such a state. Admission adds at most one job
    to level 0 per tick, and demotion always lands at level 1 or lower.
    Every service path takes level 0's head, so level 0 is empty at the end
    of every tick (`SchedulerProofs.TickEmptiesLevelZero`).
  - As a consequence, the response counter (`avgRespTime` before its
    division) stays 0 for every input (`SchedulerProofs.NoResponseTicks`).
- **Waiting time counts from clock 0.** Admission does not clock a job in,
  and a new job's wait-start is 0. A job's first sojourn is therefore
  counted from clock 0 rather than from its arrival
  (`SchedulerProofs.FirstSojournFromZero`).
- **Arrivals are matched with `==`.** Admission compares the buffer head's
  arrival time with `==` against the clock that was just incremented. In
  this model the clock is an unbounded integer. A head whose arrival time is
  already behind the clock is then never admitted, so the loop never ends
  (`SchedulerProofs.MissedArrivalNeverEnds`). With Java's 32-bit clock the
  same head is admitted only after about 2^32 ticks, once `clock++` wraps
  round to the arrival time again. This happens in these cases:
  - the first input job arrives at time 0
    (`SchedulerProofs.ArrivalAtZeroNeverEnds`);
  - the first two input jobs share an arrival time
    (`SchedulerProofs.SharedArrivalInInputNeverEnds`);
  - more generally, the two jobs at the head of the buffer share an arrival
    time that is still ahead (`SchedulerProofs.SharedAheadNeverEnds`).
- **Level 0 is dispatched even to a busy CPU.** `submitQueuedJob` takes
  level 0 without checking that the CPU is idle. A busy CPU given work at
  level 0 would have its held job overwritten and lost
  (`Scheduler.SubmitQueuedJob`). Every call site passes an idle CPU.
- **A job needing no work never finishes.** The finish test is
  `getTimeRemaining() == 0`, and it runs after a decrement with no floor.
  With unbounded integers, a held job whose remaining time is 0 or less
  therefore never passes it (`Processor.NonPositiveNeverFinishes`). An input
  job with required time 0 or less never departs. It is still preempted like
  any other job, so it stays in the system for good, moving between the CPU
  and the level queues, and with unbounded integers the loop never ends. In
  Java, `cpuTimeRemaining` is a 32-bit `int`: it wraps round to 0 after 2^32
  units of service, and the job then departs. The invariant lemmas assume
  every input job needs at least one unit
  (`SchedulerProofs.LoadEstablishesInv`).

## Model

| member | source | states |
|---|---|---|
| Queues.Empty | src/ObjectQueue.java:8-28 | a new or cleared queue is valid, holds nothing, has 4 slots, front 0 and rear -1 |
| Queues.IsEmpty | src/ObjectQueue.java:15-17 | `count == 0` holds exactly when the abstract contents are empty |
| Queues.IsFull | src/ObjectQueue.java:19-21 | full exactly when the number of queued elements equals the capacity |
| Queues.Resize | src/ObjectQueue.java:57-68 | relocation to a new power-of-two size keeps the contents and their order, resets front to 0 and rear to count - 1 |
| Queues.Relocate | src/ObjectQueue.java:57-68 | the Java copy loop over the circular array yields exactly the functional relocation, so the contents are unchanged |
| Queues.Insert | src/ObjectQueue.java:30-38 | insert never fails, appends the element at the back, and doubles the capacity exactly when the queue was full |
| Queues.Append | src/ObjectQueue.java:34-37 | advancing rear modulo the length and storing appends to the contents without moving front or changing capacity |
| Queues.Remove | src/ObjectQueue.java:40-51 | an empty queue returns None and is unchanged; otherwise the front element is returned, the rest stays in order, and capacity halves exactly when fewer than a quarter of the slots stay used |
| Queues.Query | src/ObjectQueue.java:53-55 | on a non-empty queue, query returns the front element of the contents |
| Queues.Apply | src/ObjectQueue.java:30-51 | any sequence of insert and remove calls keeps the representation valid: capacity a power of two, at least 2 and at least the count |
| Queues.StepIsFifo | src/ObjectQueue.java:30-51 | one insert or remove call: what it returns followed by what remains equals what was queued followed by what it inserts |
| Queues.ApplyIsFifo | src/ObjectQueue.java:30-68 | across any sequence of calls, with any number of grow and shrink relocations, the elements removed followed by those still queued are the initial contents followed by everything inserted |
| Queues.ShrinkToTwo | src/ObjectQueue.java:48-49 | one insert then one remove on a new queue returns the element and leaves an empty queue of 2 slots, below the initial 4 |
| Jobs.NewJob | src/Job.java:27-38 | a new job keeps its pid, arrival time and required time, has all of its required time left, sits at level 0, and has zero time in system, waiting time and wait-start |
| Jobs.IncCurrentQueue | src/Job.java:148-151 | demotion raises the level by one below the lowest level and leaves the job unchanged at level 3 |
| Jobs.IncTimesSaturates | src/Job.java:148-151 | n demotions give level min(level + n, 3) and change nothing else about the job |
| Jobs.ClockInQueue | src/Job.java:124-126 | clock-in sets the wait-start to the given time and changes nothing else about the job |
| Jobs.ClockOutQueue | src/Job.java:132-134 | clock-out adds the time since the wait-start to the waiting time and changes nothing else about the job |
| Jobs.SojournsAccumulate | src/Job.java:124-134 | paired clock-in/clock-out calls grow the waiting time by exactly the total length of the sojourns, whatever the old wait-start |
| Jobs.DecTimeRemaining | src/Job.java:139-141 | one unit of service lowers the remaining time by one, with no floor, and changes nothing else |
| Jobs.SetTimeInSystem | src/Job.java:116-118 | only the time in system changes, to the given value |
| Processor.Quantum | src/CPU.java:111 | the quantum is 2, 4, 8 or 16 for levels 0, 1, 2 or 3, that is 2^(level+1) |
| Processor.NewCpu | src/CPU.java:19-23 | a new CPU is idle, holds no job and has quantum 0 |
| Processor.IsBusy | src/CPU.java:29-31 | for a consistent CPU, the busy flag holds exactly when a job is held |
| Processor.JobFinished | src/CPU.java:38-43 | true exactly when a job is held and it has no time left; false with no job |
| Processor.QuantumClockDone | src/CPU.java:49-54 | true exactly when a job is held and the quantum is 0; false with no job |
| Processor.PreemptCpu | src/CPU.java:69-76 | preemption returns the held job demoted by one level (capped) and leaves the CPU idle with quantum 0 |
| Processor.ClearCpu | src/CPU.java:85-92 | clearing returns the held job stamped with the departure time, its level unchanged, and leaves the CPU idle |
| Processor.DecClocks | src/CPU.java:98-101 | a tick of service lowers the quantum and the held job's remaining time by one each |
| Processor.SubmitJob | src/CPU.java:109-113 | submitting installs the job, sets busy, and sets the quantum to 2^(level+1) |
| Processor.ServeCountsDown | src/CPU.java:98-101 | n ticks of service lower the quantum and the remaining time by n each and change nothing else |
| Processor.QuantumAndFinish | src/CPU.java:38-113 | after a job is submitted, its quantum runs out after exactly 2^(level+1) ticks and it is finished after exactly its remaining time |
| Processor.NonPositiveNeverFinishes | src/CPU.java:38-43 | with unbounded integers, a held job whose remaining time is 0 or less is never finished after one or more ticks of service, and its remaining time goes below 0 |
| Scheduler.JobsOfIndex | src/MFQ.java:101-105 | the jobs built from the input are one per input line, in order: the i-th is a new job with the pid, arrival time and required time of the i-th line |
| Scheduler.GetJobs | src/MFQ.java:93-107 | every input line becomes a new job appended to the arrival buffer, in input order |
| Scheduler.Load | src/MFQ.java:51-72 | after construction and loading: clock 0, all accumulators 0, four empty levels, an idle CPU, and the input jobs in the buffer |
| Scheduler.Running | src/MFQ.java:134-136 | the loop condition holds exactly when the buffer or some level is non-empty, or the CPU holds a job |
| Scheduler.RecordOutData | src/MFQ.java:217-229 | a departure adds one job, its turnaround (time in system minus arrival) and its waiting time, and leaves idle and response counts alone |
| Scheduler.AdmitArrival | src/MFQ.java:243-249 | only the buffer head is admitted, only when its arrival time equals the clock; it joins the back of its level's queue with one arrival event, and nothing else changes |
| Scheduler.ScanLevels | src/MFQ.java:274-295 | from level k: an idle CPU gets the head of the first non-empty level, clocked out, with the other levels untouched, or nothing when all are empty; a busy CPU is refilled only from a non-empty level 0 |
| Scheduler.SubmitQueuedJob | src/MFQ.java:274-295 | with an idle CPU, the head of the highest-priority non-empty level is clocked out and installed with its level's quantum, and the CPU stays idle exactly when all levels are empty; a busy CPU with work at level 0 is handed level 0's head, overwriting the held job |
| Scheduler.Depart | src/MFQ.java:252-256 | the finished job leaves stamped with the clock, is recorded in the accumulators and emits one departure; the CPU is then refilled from the levels |
| Scheduler.Preempt | src/MFQ.java:257-262 | the held job is demoted, clocked in, appended to its new level, and the CPU is refilled from the levels; the accumulators are unchanged |
| Scheduler.FinishCheck | src/MFQ.java:252-256 | a finished job departs; otherwise nothing changes; afterwards the CPU holds a job or all levels are empty |
| Scheduler.PreemptCheck | src/MFQ.java:257-262 | preemption happens exactly when the quantum has run out or level 0 is non-empty; otherwise nothing changes |
| Scheduler.ServeCpu | src/MFQ.java:250-262 | a busy tick emits a departure exactly when the held job's remaining time reaches 0, recording it; otherwise no event and unchanged accumulators |
| Scheduler.ServeIdle | src/MFQ.java:263-266 | an idle CPU counts one idle tick and dispatches from the levels |
| Scheduler.ServeStep | src/MFQ.java:250-266 | service emits no arrivals and at most one departure, stamped with the clock; the accumulators grow by exactly that departure, plus one idle tick when the CPU was idle |
| Scheduler.CountResponse | src/MFQ.java:267 | one response tick is counted exactly when level 0 is non-empty at the end of the tick; nothing else changes |
| Scheduler.TickSimulation | src/MFQ.java:241-268 | a tick keeps the state well formed and advances the clock by one |
| Scheduler.TickAdmission | src/MFQ.java:242-249 | a tick admits the buffer head exactly when its arrival time equals the incremented clock, and admits nothing else |
| Scheduler.TickDepartures | src/MFQ.java:250-256 | a tick lets at most one job depart, with time in system equal to the new clock |
| Scheduler.TickAccounting | src/MFQ.java:241-268 | a tick's changes to the five accumulators are exactly what its departures, an idle start of service and a non-empty level 0 at the end account for |
| Scheduler.Run | src/MFQ.java:134-138 | n ticks keep the state well formed and advance the clock by n |
| Scheduler.Simulate | src/MFQ.java:131-138 | when the loop ends within the bound, the final state is well formed and the loop condition is false |
| SchedulerProofs.RunningIffJobsRemain | src/MFQ.java:134-136 | the loop continues exactly while some job is in the buffer, a level or the CPU |
| SchedulerProofs.DispatchConserves | src/MFQ.java:274-295 | dispatch onto an idle CPU moves one job from a level to the CPU and neither creates nor loses jobs |
| SchedulerProofs.AdmitConserves | src/MFQ.java:243-249 | admission moves a job from the buffer to a level without creating or losing jobs |
| SchedulerProofs.PreemptConserves | src/MFQ.java:257-262 | preemption and refill neither create nor lose jobs |
| SchedulerProofs.DepartConserves | src/MFQ.java:252-256 | a departure removes exactly the finished job from the system |
| SchedulerProofs.FinishConserves | src/MFQ.java:252-256 | the finish check removes exactly the jobs it reports as departed |
| SchedulerProofs.PreemptCheckConserves | src/MFQ.java:257-262 | the preempt check neither creates nor loses jobs |
| SchedulerProofs.ServeConserves | src/MFQ.java:250-266 | service removes exactly the departed jobs from the system |
| SchedulerProofs.TickConserves | src/MFQ.java:241-268 | over one tick, the jobs in the system before are those in it after plus those that departed |
| SchedulerProofs.LoadEstablishesInv | src/MFQ.java:51-107 | when every job needs at least one unit, a freshly loaded simulation satisfies the state invariant (a job needing 0 or fewer units would never pass the `== 0` finish test) |
| SchedulerProofs.DispatchKeepsInv | src/MFQ.java:274-295 | dispatch keeps every level's jobs at their level with work left, and the CPU holds a job with work left and a quantum in [1, 2^(level+1)] |
| SchedulerProofs.AdmitKeepsInv | src/MFQ.java:243-249 | admission keeps the invariant, and the admitted job is at level 0 |
| SchedulerProofs.PreemptKeepsInv | src/MFQ.java:257-262 | preempting a job with work left keeps every queued job at its own level with work left, and leaves the CPU idle or holding a job with work left and a quantum in [1, 2^(level+1)] |
| SchedulerProofs.ServeKeepsInv | src/MFQ.java:250-266 | service keeps the invariant: no level holds a job of another level or a finished job, and the CPU is idle or holds a job with work and quantum left |
| SchedulerProofs.TickPreservesInv | src/MFQ.java:241-268 | every tick preserves the invariant: buffered jobs are untouched, each queued job carries its queue's level and has work left, and the CPU is idle or holds a job with work left and a quantum in [1, 2^(level+1)] |
| SchedulerProofs.ArrivalsJoinLevelZero | src/MFQ.java:243-249 | every job a tick admits is at level 0 |
| SchedulerProofs.RunConserves | src/MFQ.java:134-138 | over any number of ticks, the jobs in the system at the start are those at the end plus those that departed |
| SchedulerProofs.RunAccounting | src/MFQ.java:134-138 | over any number of ticks, the job count, the total turnaround and the total waiting time grow by exactly the departed jobs' count and sums |
| SchedulerProofs.SimulateConserves | src/MFQ.java:131-138 | when the loop ends, every job in the system at the start has departed |
| SchedulerProofs.SimulateAccounting | src/MFQ.java:131-138 | when the loop ends, the accumulators grew by exactly the departed jobs' count and sums |
| SchedulerProofs.LoadedJobs | src/MFQ.java:93-107 | the jobs in a freshly loaded system are exactly the input jobs |
| SchedulerProofs.SimulationAccountsForAllJobs | src/MFQ.java:129-139 | a simulation that ends has sent every input job out exactly once, with its pid, arrival time and required time, and its job count and totals are the sums over the departures |
| SchedulerProofs.TickKeepsMissed | src/MFQ.java:243-244 | a buffer whose head is already behind the clock is left exactly as it is by a tick |
| SchedulerProofs.MissedArrivalIsNeverAdmitted | src/MFQ.java:243-244 | with an unbounded clock, once the clock has passed the head's arrival time, no number of ticks admits it, and the loop condition stays true |
| SchedulerProofs.MissedArrivalNeverEnds | src/MFQ.java:134-138 | with the head behind the clock and an unbounded clock, the loop does not end within any bound |
| SchedulerProofs.ArrivalAtZeroNeverEnds | src/MFQ.java:242-244 | with an unbounded clock, an input whose first job arrives at time 0 never finishes, since the first tick compares with clock 1 |
| SchedulerProofs.SharedArrivalNeverEnds | src/MFQ.java:242-249 | two buffered jobs with the same arrival time: the first is admitted, the second is then behind the clock, and with an unbounded clock the loop never ends |
| SchedulerProofs.SharedAheadNeverEnds | src/MFQ.java:242-249 | when the two buffered heads share an arrival time still ahead of the clock, ticks before it admit nothing, only the first is admitted on it, and with an unbounded clock the loop never ends |
| SchedulerProofs.SharedArrivalInInputNeverEnds | src/MFQ.java:131-138 | with an unbounded clock, an input whose first two jobs share an arrival time of at least 1 does not finish within any bound |
| SchedulerProofs.DispatchLevelZero | src/MFQ.java:275-278 | with an idle CPU and level 0 non-empty, the head of level 0 is clocked out and installed, and levels 1 to 3 are untouched |
| SchedulerProofs.RefillFromLevelZero | src/MFQ.java:252-256 | a departure with jobs at level 0 refills the CPU with the clocked-out head of level 0 |
| SchedulerProofs.PreemptToLevelOne | src/MFQ.java:257-262 | a held level-0 job with another waiting at level 0 is clocked in at the back of level 1, and the level-0 head takes the CPU |
| SchedulerProofs.PreemptAfterRefill | src/MFQ.java:250-262 | with two or more jobs at level 0 and the held job on its last unit, the job refilled from level 0 is demoted to level 1 in the same tick and the next level-0 job runs |
| SchedulerProofs.FirstSojournFromZero | src/MFQ.java:242-249 | a fresh job arriving at an idle, empty system is dispatched at once but credited with a waiting time equal to the arrival clock |
| SchedulerProofs.DispatchEmptiesLevelZero | src/MFQ.java:274-295 | dispatch onto an idle CPU leaves level 0 empty when it held at most one job |
| SchedulerProofs.PreemptEmptiesLevelZero | src/MFQ.java:257-262 | preemption queues the demoted job at level 1 or lower and the refill leaves level 0 empty when it held at most one job |
| SchedulerProofs.ServeEmptiesLevelZero | src/MFQ.java:250-266 | service, busy or idle, leaves level 0 empty when it held at most one job |
| SchedulerProofs.TickEmptiesLevelZero | src/MFQ.java:241-268 | a tick that starts with level 0 empty ends with it empty and counts no response tick |
| SchedulerProofs.RunKeepsLevelZeroEmpty | src/MFQ.java:134-138 | level 0 stays empty and the response counter stays put across any number of ticks |
| SchedulerProofs.NoResponseTicks | src/MFQ.java:267 | from any input, every tick ends with level 0 empty and the response counter still 0 |

## Left out

- The Swing GUI and its tick copies (`DrawPanel`, `JobVisuals`, the `*GUI`
  variants of the tick and dispatch methods): these are presentation code.
- Output is left out: printing, the output file, `outputHeader`,
  `outArrivalData`, `outStats` and the printing half of `recordOutData`. The
  arrival and departure events a tick returns stand in for the printed
  lines.
- The constructor's choice between the GUI and the console run, and the
  window set-up: the model starts from the state the constructor and
  `getJobs` leave behind (`Scheduler.Load`).
- Parsing of input lines (`String.split`, `Integer.parseInt`): the input is a
  sequence of already-parsed `Descriptor`s.
- `totalRecords` and every floating-point average (`taTime`, `throughput`,
  the final divisions of `avgWaitTime` and `avgRespTime`): floating point is
  not modelled. The integer sums they divide are modelled exactly.
- Java's 32-bit `int` wrap-around on the clock, the accumulators and the job
  fields is not modelled; Dafny integers are unbounded.
- SchedulerProofs.MissedArrivalNeverEnds, together with
  `SchedulerProofs.MissedArrivalIsNeverAdmitted`,
  `SchedulerProofs.ArrivalAtZeroNeverEnds`,
  `SchedulerProofs.SharedArrivalNeverEnds`,
  `SchedulerProofs.SharedAheadNeverEnds` and
  `SchedulerProofs.SharedArrivalInInputNeverEnds`: their "never" holds for
  the unbounded clock only. In Java, `clock` wraps after 2^32 ticks, so each
  missed head is admitted after about 2^32 ticks rather than never.
- Processor.NonPositiveNeverFinishes: its "never" holds for unbounded
  integers only. In Java, `cpuTimeRemaining` is a 32-bit `int` that wraps
  round to 0 after 2^32 units of service, so such a job does finish then.
- `Math.pow` and its `double` result: only the four values it produces for
  levels 0 to 3 are modelled, as `Pow2`.
- The job's `visualID` field, its accessors, and `peekCPU`: these are used
  only by the GUI.
- `ObjectQueueInterface` is a Java interface with no behaviour.
- Java object identity: a job is in exactly one place at a time, so jobs are
  values, and the mutation of a shared `Job` object is modelled by
  returning the updated job.
- Queues.Relocate: the Java array is a `seq` in the queue datatype, so the
  method copies into a fresh array and returns a new queue instead of
  replacing the field.
- Queues.Query: the Java method reads `items[front]` without checking for
  an empty queue; the model requires a non-empty queue. Every caller checks
  first.
- Scheduler.Simulate: the loop is modelled with a bound on the number of
  ticks. `None` means the loop would still be running after that many ticks,
  so an unbounded run is stated as "`None` for every bound".
- Scheduler.TickSimulation: its own contract states only well-formedness and
  the clock step. The tick's behaviour is stated by `TickAdmission`,
  `TickDepartures`, `TickAccounting`, `TickConserves` and
  `TickPreservesInv`.
- Preemption and dispatch events are not emitted, because the console
  version prints only arrivals and departures.
