/**
 The discrete-time multi-level feedback queue scheduler: an arrival buffer,
 four ready queues (level 0 is the highest priority), one CPU, a clock and
 the integer statistics accumulators. `TickSimulation` is one step of the
 console simulation loop.
 */
module Scheduler {
  import opened Wrappers
  import opened Queues
  import opened Jobs
  import opened Processor

  /** One input line: arrival time, process id, CPU time required. */
  datatype Descriptor = Descriptor(arrivalTime: int, pid: int, cpuTimeRequired: int)

  /** The integer accumulators. `waitSum` and `respTicks` are the Java
      doubles `avgWaitTime` and `avgRespTime` before the final division; until
      then only integers are added to them. */
  datatype Stats = Stats(
    totalNumOfJobs: int,
    totalJobTime: int,
    waitSum: int,
    cpuIdleTime: int,
    respTicks: int)

  /** What the console version reports: an arrival, or a departure carrying
      the finished job (its time in system is the departure clock). */
  datatype Event = Arrival(clock: int, job: Job) | Departure(clock: int, job: Job)

  datatype Mfq = Mfq(
    clock: int,
    jobQueue: Queue<Job>,
    queueLevel: seq<Queue<Job>>,
    cpu: Cpu,
    stats: Stats)

  ghost predicate LevelsValid(lv: seq<Queue<Job>>)
  {
    |lv| == MaxQueueLevel && forall k :: 0 <= k < |lv| ==> Valid(lv[k])
  }

  ghost predicate WellFormed(s: Mfq)
  {
    Valid(s.jobQueue) && LevelsValid(s.queueLevel) && Consistent(s.cpu)
  }

  /** Every level queue is empty. */
  ghost predicate AllEmpty(lv: seq<Queue<Job>>)
    requires LevelsValid(lv)
  {
    forall k :: 0 <= k < |lv| ==> Contents(lv[k]) == []
  }

  /** The jobs a descriptor list describes, in input order. */
  function JobsOf(descs: seq<Descriptor>): seq<Job>
    decreases |descs|
  {
    if descs == [] then []
    else [NewJob(descs[0].pid, descs[0].arrivalTime, descs[0].cpuTimeRequired)] + JobsOf(descs[1..])
  }

  /** The i-th job is a new job built from the i-th descriptor. */
  lemma {:induction false} JobsOfIndex(descs: seq<Descriptor>)
    ensures |JobsOf(descs)| == |descs|
    ensures forall i :: 0 <= i < |descs| ==>
              JobsOf(descs)[i] == NewJob(descs[i].pid, descs[i].arrivalTime, descs[i].cpuTimeRequired)
    decreases |descs|
  {
    if descs != [] {
      JobsOfIndex(descs[1..]);
    }
  }

  /** `getJobs` after parsing: each descriptor becomes a new job appended to
      the arrival buffer, in input order. */
  function GetJobs(q: Queue<Job>, descs: seq<Descriptor>): (r: Queue<Job>)
    requires Valid(q)
    ensures Valid(r) && Contents(r) == Contents(q) + JobsOf(descs)
    decreases |descs|
  {
    if descs == [] then q
    else
      var j := NewJob(descs[0].pid, descs[0].arrivalTime, descs[0].cpuTimeRequired);
      var r := GetJobs(Insert(q, j), descs[1..]);
      AppendAssoc(Contents(q), [j], JobsOf(descs[1..]));
      r
  }

  /** The constructor followed by `getJobs`: clock 0, all counters 0, empty
      ready queues, an idle CPU, and the jobs waiting in the arrival buffer. */
  function Load(descs: seq<Descriptor>): (s: Mfq)
    ensures WellFormed(s) && s.clock == 0 && Contents(s.jobQueue) == JobsOf(descs)
    ensures AllEmpty(s.queueLevel) && !s.cpu.busy
    ensures s.stats == Stats(0, 0, 0, 0, 0)
  {
    Mfq(0, GetJobs(Empty(), descs), seq(MaxQueueLevel, _ => Empty()), NewCpu(), Stats(0, 0, 0, 0, 0))
  }

  /** The condition of the `runSimulation` loop. */
  function Running(s: Mfq): (b: bool)
    requires WellFormed(s)
    ensures b <==> Contents(s.jobQueue) != [] || !AllEmpty(s.queueLevel) || s.cpu.currentJob.Some?
  {
    !IsEmpty(s.jobQueue) || !IsEmpty(s.queueLevel[0]) || !IsEmpty(s.queueLevel[1])
      || !IsEmpty(s.queueLevel[2]) || !IsEmpty(s.queueLevel[3]) || IsBusy(s.cpu)
  }

  /** The accumulator part of `recordOutData` for a departing job. */
  function RecordOutData(st: Stats, job: Job): (r: Stats)
    ensures r.totalNumOfJobs == st.totalNumOfJobs + 1
    ensures r.totalJobTime == st.totalJobTime + TurnaroundSum([job])
    ensures r.waitSum == st.waitSum + WaitingSum([job])
    ensures r.cpuIdleTime == st.cpuIdleTime && r.respTicks == st.respTicks
  {
    assert [job][1..] == [];
    st.(totalJobTime := st.totalJobTime + (job.timeInSystem - job.arrivalTime),
        waitSum := st.waitSum + job.waitingTime,
        totalNumOfJobs := st.totalNumOfJobs + 1)
  }

  /** The head of the arrival buffer is due at this clock value. */
  ghost predicate ArrivalDue(s: Mfq)
    requires WellFormed(s)
  {
    Contents(s.jobQueue) != [] && Contents(s.jobQueue)[0].arrivalTime == s.clock
  }

  /** Admission: at most one job, and only when the buffer head's arrival time
      equals the clock exactly. It joins the queue of its own level (0 for a
      job that was never scheduled). */
  function AdmitArrival(s: Mfq): (r: (Mfq, seq<Event>))
    requires WellFormed(s)
    ensures WellFormed(r.0)
    ensures r.0.clock == s.clock && r.0.cpu == s.cpu && r.0.stats == s.stats
    ensures Departures(r.1) == [] && Arrivals(r.1) == if ArrivalDue(s) then [Contents(s.jobQueue)[0]] else []
    ensures !ArrivalDue(s) ==> r == (s, [])
    ensures ArrivalDue(s) ==>
              var j := Contents(s.jobQueue)[0];
              && r.1 == [Arrival(s.clock, j)]
              && Contents(r.0.jobQueue) == Contents(s.jobQueue)[1..]
              && Contents(r.0.queueLevel[j.currentQueue]) == Contents(s.queueLevel[j.currentQueue]) + [j]
              && forall k :: 0 <= k < MaxQueueLevel && k != j.currentQueue ==> r.0.queueLevel[k] == s.queueLevel[k]
  {
    if !IsEmpty(s.jobQueue) && Query(s.jobQueue).arrivalTime == s.clock then
      var (jobQueue, removed) := Remove(s.jobQueue);
      var nextJob := removed.value;
      var level := nextJob.currentQueue;
      var queueLevel := s.queueLevel[level := Insert(s.queueLevel[level], nextJob)];
      SingleEvent(Arrival(s.clock, nextJob));
      (s.(jobQueue := jobQueue, queueLevel := queueLevel), [Arrival(s.clock, nextJob)])
    else
      (s, [])
  }

  /** Level m's front job was moved to the CPU: its sojourn closed at `clock`,
      the quantum set from its level, every other queue untouched. */
  ghost predicate DispatchedFrom(c: Cpu, lv: seq<Queue<Job>>, clock: int, m: int, r: (Cpu, seq<Queue<Job>>))
    requires LevelsValid(lv) && LevelsValid(r.1) && 0 <= m < MaxQueueLevel && Contents(lv[m]) != []
  {
    var j := Contents(lv[m])[0];
    && r.0.busy
    && r.0.currentJob == Some(ClockOutQueue(j, clock))
    && r.0.quantumClock == Pow2(j.currentQueue + 1)
    && Contents(r.1[m]) == Contents(lv[m])[1..]
    && forall k :: 0 <= k < MaxQueueLevel && k != m ==> r.1[k] == lv[k]
  }

  /** m is the lowest-numbered (highest-priority) non-empty level. */
  ghost predicate LowestNonEmpty(lv: seq<Queue<Job>>, m: int)
    requires LevelsValid(lv)
  {
    0 <= m < MaxQueueLevel && Contents(lv[m]) != []
      && forall i :: 0 <= i < m ==> Contents(lv[i]) == []
  }

  /** The branch chain of `submitQueuedJob`, from level k on. Level 0 is
      taken whenever it is non-empty; levels 1 to 3 only when the CPU is idle. */
  function ScanLevels(c: Cpu, lv: seq<Queue<Job>>, clock: int, k: nat): (r: (Cpu, seq<Queue<Job>>))
    requires LevelsValid(lv) && k <= MaxQueueLevel
    ensures LevelsValid(r.1)
    ensures Consistent(c) ==> Consistent(r.0)
    ensures !c.busy && !r.0.busy ==>
              r == (c, lv) && forall i :: k <= i < MaxQueueLevel ==> Contents(lv[i]) == []
    ensures !c.busy ==>
              forall m :: k <= m < MaxQueueLevel && Contents(lv[m]) != []
                          && (forall i :: k <= i < m ==> Contents(lv[i]) == [])
                          ==> DispatchedFrom(c, lv, clock, m, r)
    ensures c.busy && (0 < k || Contents(lv[0]) == []) ==> r == (c, lv)
    decreases MaxQueueLevel - k
  {
    if k == MaxQueueLevel then (c, lv)
    else if !IsEmpty(lv[k]) && (k == 0 || !c.busy) then
      var (q, removed) := Remove(lv[k]);
      var temp := ClockOutQueue(removed.value, clock);
      (SubmitJob(c, temp), lv[k := q])
    else
      ScanLevels(c, lv, clock, k + 1)
  }

  /** `submitQueuedJob`. With an idle CPU the front job of the
      highest-priority non-empty level is dispatched, or nothing happens when
      all levels are empty. Level 0 is taken even from a busy CPU, whose held
      job is then overwritten; every caller passes an idle CPU. */
  function SubmitQueuedJob(c: Cpu, lv: seq<Queue<Job>>, clock: int): (r: (Cpu, seq<Queue<Job>>))
    requires LevelsValid(lv)
    ensures LevelsValid(r.1)
    ensures Consistent(c) ==> Consistent(r.0)
    ensures !c.busy && AllEmpty(lv) ==> r == (c, lv)
    ensures !c.busy && !r.0.busy ==> AllEmpty(lv)
    ensures !c.busy ==> forall m :: LowestNonEmpty(lv, m) ==> DispatchedFrom(c, lv, clock, m, r)
    ensures c.busy && Contents(lv[0]) != [] ==> DispatchedFrom(c, lv, clock, 0, r)
  {
    BusyLevelZero(c, lv, clock);
    ScanLevels(c, lv, clock, 0)
  }

  /** The unguarded first branch: a busy CPU with work at level 0 is handed
      level 0's front job, and the job it held is dropped. */
  lemma BusyLevelZero(c: Cpu, lv: seq<Queue<Job>>, clock: int)
    requires LevelsValid(lv)
    ensures c.busy && Contents(lv[0]) != [] ==> DispatchedFrom(c, lv, clock, 0, ScanLevels(c, lv, clock, 0))
  {
  }

  /** The finish branch: clear the CPU stamping the departure time, fold the
      job into the statistics, refill the CPU. */
  function Depart(s: Mfq): (r: (Mfq, seq<Event>))
    requires WellFormed(s) && JobFinished(s.cpu)
    ensures WellFormed(r.0)
    ensures r.0.clock == s.clock && r.0.jobQueue == s.jobQueue
    ensures r.1 == [Departure(s.clock, s.cpu.currentJob.value.(timeInSystem := s.clock))]
    ensures r.0.stats == RecordOutData(s.stats, r.1[0].job)
    ensures r.0.cpu.busy || AllEmpty(r.0.queueLevel)
    ensures r.0.cpu == SubmitQueuedJob(NewCpu(), s.queueLevel, s.clock).0
    ensures r.0.queueLevel == SubmitQueuedJob(NewCpu(), s.queueLevel, s.clock).1
  {
    var cleared := ClearCpu(s.cpu, s.clock);
    var dispatched := SubmitQueuedJob(cleared.0, s.queueLevel, s.clock);
    (s.(cpu := dispatched.0, queueLevel := dispatched.1, stats := RecordOutData(s.stats, cleared.1)),
     [Departure(s.clock, cleared.1)])
  }

  /** The preempt branch: demote the held job, clock it in, queue it at the
      back of its new level, refill the CPU. */
  function Preempt(s: Mfq): (r: Mfq)
    requires WellFormed(s) && s.cpu.currentJob.Some?
    ensures WellFormed(r)
    ensures r.clock == s.clock && r.jobQueue == s.jobQueue && r.stats == s.stats
    ensures var j := ClockInQueue(IncCurrentQueue(s.cpu.currentJob.value), s.clock);
            var lv := s.queueLevel[j.currentQueue := Insert(s.queueLevel[j.currentQueue], j)];
            && Contents(lv[j.currentQueue]) == Contents(s.queueLevel[j.currentQueue]) + [j]
            && r.cpu == SubmitQueuedJob(NewCpu(), lv, s.clock).0
            && r.queueLevel == SubmitQueuedJob(NewCpu(), lv, s.clock).1
  {
    var preempted := PreemptCpu(s.cpu);
    var temp := ClockInQueue(preempted.1, s.clock);
    var level := temp.currentQueue;
    var queueLevel := s.queueLevel[level := Insert(s.queueLevel[level], temp)];
    var dispatched := SubmitQueuedJob(preempted.0, queueLevel, s.clock);
    s.(cpu := dispatched.0, queueLevel := dispatched.1)
  }

  /** Service of a busy CPU: one tick of work; then the finish check; then,
      even when the finish check just refilled the CPU, the preempt check. */
  function ServeCpu(s: Mfq): (r: (Mfq, seq<Event>))
    requires WellFormed(s) && s.cpu.busy
    ensures WellFormed(r.0)
    ensures r.0.clock == s.clock && r.0.jobQueue == s.jobQueue
    ensures r.0.stats.cpuIdleTime == s.stats.cpuIdleTime && r.0.stats.respTicks == s.stats.respTicks
    ensures var held := DecTimeRemaining(s.cpu.currentJob.value);
            if held.cpuTimeRemaining == 0 then
              && r.1 == [Departure(s.clock, held.(timeInSystem := s.clock))]
              && r.0.stats == RecordOutData(s.stats, r.1[0].job)
            else r.1 == [] && r.0.stats == s.stats
  {
    var finished := FinishCheck(s.(cpu := DecClocks(s.cpu)));
    (PreemptCheck(finished.0), finished.1)
  }

  /** The finish check: a held job with no time left departs and the CPU is
      refilled; otherwise nothing changes. */
  function FinishCheck(s: Mfq): (r: (Mfq, seq<Event>))
    requires WellFormed(s) && s.cpu.currentJob.Some?
    ensures WellFormed(r.0)
    ensures r.0.clock == s.clock && r.0.jobQueue == s.jobQueue
    ensures r.0.cpu.currentJob.Some? || AllEmpty(r.0.queueLevel)
    ensures JobFinished(s.cpu) ==> r == Depart(s)
    ensures !JobFinished(s.cpu) ==> r == (s, [])
  {
    if JobFinished(s.cpu) then Depart(s) else (s, [])
  }

  /** The preempt check: a used-up quantum, or any job waiting at level 0,
      sends the held job back to the ready queues. */
  function PreemptCheck(s: Mfq): (r: Mfq)
    requires WellFormed(s) && (s.cpu.currentJob.Some? || AllEmpty(s.queueLevel))
    ensures WellFormed(r)
    ensures r.clock == s.clock && r.jobQueue == s.jobQueue && r.stats == s.stats
    ensures QuantumClockDone(s.cpu) || Contents(s.queueLevel[0]) != [] ==> s.cpu.currentJob.Some? && r == Preempt(s)
    ensures !(QuantumClockDone(s.cpu) || Contents(s.queueLevel[0]) != []) ==> r == s
  {
    if QuantumClockDone(s.cpu) || !IsEmpty(s.queueLevel[0]) then Preempt(s) else s
  }

  /** An idle CPU at the start of service: count an idle tick and dispatch. */
  function ServeIdle(s: Mfq): (r: Mfq)
    requires WellFormed(s) && !s.cpu.busy
    ensures WellFormed(r)
    ensures r.clock == s.clock && r.jobQueue == s.jobQueue
    ensures r.stats == s.stats.(cpuIdleTime := s.stats.cpuIdleTime + 1)
    ensures r.cpu == SubmitQueuedJob(s.cpu, s.queueLevel, s.clock).0
    ensures r.queueLevel == SubmitQueuedJob(s.cpu, s.queueLevel, s.clock).1
  {
    var dispatched := SubmitQueuedJob(s.cpu, s.queueLevel, s.clock);
    s.(cpu := dispatched.0, queueLevel := dispatched.1,
       stats := s.stats.(cpuIdleTime := s.stats.cpuIdleTime + 1))
  }

  /** The jobs carried by the departure events, in order. */
  function Departures(evs: seq<Event>): seq<Job>
  {
    if evs == [] then []
    else (if evs[0].Departure? then [evs[0].job] else []) + Departures(evs[1..])
  }

  /** The jobs carried by the arrival events, in order. */
  function Arrivals(evs: seq<Event>): seq<Job>
  {
    if evs == [] then []
    else (if evs[0].Arrival? then [evs[0].job] else []) + Arrivals(evs[1..])
  }

  /** Sum of time in system minus arrival time. */
  function TurnaroundSum(js: seq<Job>): int
  {
    if js == [] then 0 else js[0].timeInSystem - js[0].arrivalTime + TurnaroundSum(js[1..])
  }

  function WaitingSum(js: seq<Job>): int
  {
    if js == [] then 0 else js[0].waitingTime + WaitingSum(js[1..])
  }

  /** The service part of a tick, busy or idle. */
  function ServeStep(s: Mfq): (r: (Mfq, seq<Event>))
    requires WellFormed(s)
    ensures WellFormed(r.0)
    ensures r.0.clock == s.clock && r.0.jobQueue == s.jobQueue
    ensures Arrivals(r.1) == [] && |Departures(r.1)| <= 1
    ensures forall i :: 0 <= i < |Departures(r.1)| ==> Departures(r.1)[i].timeInSystem == s.clock
    ensures r.0.stats.totalNumOfJobs == s.stats.totalNumOfJobs + |Departures(r.1)|
    ensures r.0.stats.totalJobTime == s.stats.totalJobTime + TurnaroundSum(Departures(r.1))
    ensures r.0.stats.waitSum == s.stats.waitSum + WaitingSum(Departures(r.1))
    ensures r.0.stats.cpuIdleTime == s.stats.cpuIdleTime + (if s.cpu.busy then 0 else 1)
    ensures r.0.stats.respTicks == s.stats.respTicks
  {
    if IsBusy(s.cpu) then
      var r := ServeCpu(s);
      if r.1 == [] then r
      else
        SingleEvent(r.1[0]);
        r
    else
      (ServeIdle(s), [])
  }

  /** One tick of `tickSimulation`: advance the clock, admit at most one
      arrival, serve the CPU (or count an idle tick and dispatch), and count a
      tick with work waiting at level 0. */
  function TickSimulation(s: Mfq): (r: (Mfq, seq<Event>))
    requires WellFormed(s)
    ensures WellFormed(r.0)
    ensures r.0.clock == s.clock + 1
  {
    var admitted := AdmitArrival(s.(clock := s.clock + 1));
    var served := ServeStep(admitted.0);
    (CountResponse(served.0), admitted.1 + served.1)
  }

  /** The end of a tick: one response tick when level 0 is not empty. */
  function CountResponse(s: Mfq): (r: Mfq)
    requires WellFormed(s)
    ensures r == s.(stats := r.stats)
    ensures r.stats == s.stats.(respTicks := s.stats.respTicks + if Contents(s.queueLevel[0]) == [] then 0 else 1)
  {
    if !IsEmpty(s.queueLevel[0]) then s.(stats := s.stats.(respTicks := s.stats.respTicks + 1)) else s
  }

  /** The stages of a tick, named. */
  lemma TickParts(s: Mfq) returns (s1: Mfq, arrived: seq<Event>, s2: Mfq, departed: seq<Event>)
    requires WellFormed(s)
    ensures s1 == AdmitArrival(s.(clock := s.clock + 1)).0 && arrived == AdmitArrival(s.(clock := s.clock + 1)).1
    ensures WellFormed(s1) && s2 == ServeStep(s1).0 && departed == ServeStep(s1).1
    ensures TickSimulation(s).0 == CountResponse(s2) && TickSimulation(s).1 == arrived + departed
  {
    s1, arrived := AdmitArrival(s.(clock := s.clock + 1)).0, AdmitArrival(s.(clock := s.clock + 1)).1;
    s2, departed := ServeStep(s1).0, ServeStep(s1).1;
  }

  /** Admission in a tick: one job at most, only the buffer head, and only
      when its arrival time equals the new clock exactly. */
  lemma TickAdmission(s: Mfq)
    requires WellFormed(s)
    ensures var r := TickSimulation(s);
            var due := Contents(s.jobQueue) != [] && Contents(s.jobQueue)[0].arrivalTime == s.clock + 1;
            && Arrivals(r.1) == (if due then [Contents(s.jobQueue)[0]] else [])
            && Contents(r.0.jobQueue) == (if due then Contents(s.jobQueue)[1..] else Contents(s.jobQueue))
  {
    var s1, arrived, s2, departed := TickParts(s);
    EventsSplit(arrived, departed);
    assert Arrivals(TickSimulation(s).1) == Arrivals(arrived);
  }

  /** A tick lets at most one job depart, stamped with the new clock. */
  lemma TickDepartures(s: Mfq)
    requires WellFormed(s)
    ensures var r := TickSimulation(s);
            && |Departures(r.1)| <= 1
            && (forall i :: 0 <= i < |Departures(r.1)| ==> Departures(r.1)[i].timeInSystem == r.0.clock)
  {
    var s1, arrived, s2, departed := TickParts(s);
    EventsSplit(arrived, departed);
    assert Departures(TickSimulation(s).1) == Departures(departed);
  }

  /** The statistics a tick changes, in terms of the events it emits: each
      departure adds one job, its turnaround and its waiting time; an idle CPU
      at the start of service adds one idle tick; a non-empty level 0 at the
      end adds one response tick. */
  lemma TickAccounting(s: Mfq)
    requires WellFormed(s)
    ensures var r := TickSimulation(s);
            && r.0.stats.totalNumOfJobs == s.stats.totalNumOfJobs + |Departures(r.1)|
            && r.0.stats.totalJobTime == s.stats.totalJobTime + TurnaroundSum(Departures(r.1))
            && r.0.stats.waitSum == s.stats.waitSum + WaitingSum(Departures(r.1))
            && r.0.stats.cpuIdleTime == s.stats.cpuIdleTime + (if s.cpu.busy then 0 else 1)
            && r.0.stats.respTicks == s.stats.respTicks + (if Contents(r.0.queueLevel[0]) == [] then 0 else 1)
  {
    var s1, arrived, s2, departed := TickParts(s);
    EventsSplit(arrived, departed);
    assert Departures(TickSimulation(s).1) == Departures(departed);
  }

  /** The lists and sums of a single event. */
  lemma SingleEvent(e: Event)
    ensures Departures([e]) == if e.Departure? then [e.job] else []
    ensures Arrivals([e]) == if e.Arrival? then [e.job] else []
    ensures TurnaroundSum([e.job]) == e.job.timeInSystem - e.job.arrivalTime
    ensures WaitingSum([e.job]) == e.job.waitingTime
  {
    assert [e][1..] == [];
    assert [e.job][1..] == [];
  }

  /** Arrival and departure lists of a concatenation split at the seam. */
  lemma {:induction false} EventsSplit(a: seq<Event>, b: seq<Event>)
    ensures Departures(a + b) == Departures(a) + Departures(b)
    ensures Arrivals(a + b) == Arrivals(a) + Arrivals(b)
    decreases |a|
  {
    if a == [] {
      assert a + b == b;
    } else {
      var dep := if a[0].Departure? then [a[0].job] else [];
      var arr := if a[0].Arrival? then [a[0].job] else [];
      assert (a + b)[0] == a[0] && (a + b)[1..] == a[1..] + b;
      assert Departures(a + b) == dep + Departures(a[1..] + b);
      assert Arrivals(a + b) == arr + Arrivals(a[1..] + b);
      EventsSplit(a[1..], b);
      AppendAssoc(dep, Departures(a[1..]), Departures(b));
      AppendAssoc(arr, Arrivals(a[1..]), Arrivals(b));
    }
  }

  /** `n` ticks, with every event they emit, in order. */
  function Run(s: Mfq, n: nat): (r: (Mfq, seq<Event>))
    requires WellFormed(s)
    ensures WellFormed(r.0) && r.0.clock == s.clock + n
    decreases n
  {
    if n == 0 then (s, [])
    else
      var tick := TickSimulation(s);
      var rest := Run(tick.0, n - 1);
      (rest.0, tick.1 + rest.1)
  }

  /** `runSimulation`'s loop, given a bound on the number of ticks: `None`
      when the loop would still be running after `fuel` ticks. */
  function Simulate(s: Mfq, fuel: nat): (r: Option<(Mfq, seq<Event>)>)
    requires WellFormed(s)
    ensures r.Some? ==> WellFormed(r.value.0) && !Running(r.value.0)
    decreases fuel
  {
    if !Running(s) then Some((s, []))
    else if fuel == 0 then None
    else
      var tick := TickSimulation(s);
      var rest := Simulate(tick.0, fuel - 1);
      if rest.None? then None else Some((rest.value.0, tick.1 + rest.value.1))
  }
}
