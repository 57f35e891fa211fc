/**
 One job's record: its identity (pid, arrival time, required CPU time), which
 never changes, and the state the scheduler updates as the job moves between
 the ready queues and the CPU.
 */
module Jobs {

  /** Number of priority levels; levels run from 0 (highest) to 3. */
  const MaxQueueLevel := 4

  type Level = l: int | 0 <= l < MaxQueueLevel

  /** The getters of the Java class are the field selectors. */
  datatype Job = Job(
    pid: int,
    arrivalTime: int,
    cpuTimeRequired: int,
    cpuTimeRemaining: int,
    timeInSystem: int,
    currentQueue: Level,
    waitingTime: int,
    waitTimeStart: int)

  /** The three fields fixed at construction agree. */
  predicate SameIdentity(a: Job, b: Job)
  {
    a.pid == b.pid && a.arrivalTime == b.arrivalTime && a.cpuTimeRequired == b.cpuTimeRequired
  }

  /** The state of a job that has not yet been touched by the scheduler. */
  predicate IsFresh(j: Job)
  {
    && j.cpuTimeRemaining == j.cpuTimeRequired
    && j.currentQueue == 0
    && j.timeInSystem == 0
    && j.waitingTime == 0
    && j.waitTimeStart == 0
  }

  /** The constructor. Note that the wait-start stamp is 0, not the arrival
      time: nothing clocks a job in when it is admitted. */
  function NewJob(pid: int, arrivalTime: int, cpuTimeRequired: int): (j: Job)
    ensures j.pid == pid && j.arrivalTime == arrivalTime && j.cpuTimeRequired == cpuTimeRequired
    ensures IsFresh(j)
  {
    Job(pid, arrivalTime, cpuTimeRequired, cpuTimeRequired, 0, 0, 0, 0)
  }

  /** Demotion by one level, stopping at the lowest level. */
  function IncCurrentQueue(j: Job): (r: Job)
    ensures r == j.(currentQueue := r.currentQueue)
    ensures j.currentQueue < MaxQueueLevel - 1 ==> r.currentQueue == j.currentQueue + 1
    ensures j.currentQueue == MaxQueueLevel - 1 ==> r == j
  {
    if j.currentQueue < MaxQueueLevel - 1 then j.(currentQueue := j.currentQueue + 1) else j
  }

  /** Starts a queue sojourn at time `timeIn`. */
  function ClockInQueue(j: Job, timeIn: int): (r: Job)
    ensures r == j.(waitTimeStart := r.waitTimeStart)
    ensures SameIdentity(r, j) && r.currentQueue == j.currentQueue
    ensures r.waitingTime == j.waitingTime && r.waitTimeStart == timeIn
  {
    j.(waitTimeStart := timeIn)
  }

  /** Ends a queue sojourn at time `timeOut`, adding it to the waiting time. */
  function ClockOutQueue(j: Job, timeOut: int): (r: Job)
    ensures r == j.(waitingTime := r.waitingTime)
    ensures SameIdentity(r, j) && r.currentQueue == j.currentQueue
    ensures r.cpuTimeRemaining == j.cpuTimeRemaining
    ensures r.waitingTime - j.waitingTime == timeOut - j.waitTimeStart
  {
    j.(waitingTime := j.waitingTime + timeOut - j.waitTimeStart)
  }

  /** One unit of CPU service. There is no floor at 0. */
  function DecTimeRemaining(j: Job): (r: Job)
    ensures r == j.(cpuTimeRemaining := r.cpuTimeRemaining)
    ensures r.cpuTimeRemaining == j.cpuTimeRemaining - 1
  {
    j.(cpuTimeRemaining := j.cpuTimeRemaining - 1)
  }

  function SetTimeInSystem(j: Job, input: int): (r: Job)
    ensures r == j.(timeInSystem := r.timeInSystem) && r.timeInSystem == input
  {
    j.(timeInSystem := input)
  }

  /** `n` successive demotions. */
  function IncTimes(j: Job, n: nat): Job
    decreases n
  {
    if n == 0 then j else IncTimes(IncCurrentQueue(j), n - 1)
  }

  /** Demotion saturates: after n demotions the level is the old level plus n,
      capped at the lowest level, and nothing else about the job changes. */
  lemma {:induction false} IncTimesSaturates(j: Job, n: nat)
    ensures IncTimes(j, n).currentQueue ==
              if j.currentQueue + n < MaxQueueLevel then j.currentQueue + n else MaxQueueLevel - 1
    ensures IncTimes(j, n) == j.(currentQueue := IncTimes(j, n).currentQueue)
    decreases n
  {
    if n > 0 {
      IncTimesSaturates(IncCurrentQueue(j), n - 1);
    }
  }

  /** A sequence of queue sojourns, each a (clock-in, clock-out) pair. */
  function Sojourns(j: Job, stays: seq<(int, int)>): Job
    decreases |stays|
  {
    if stays == [] then j
    else Sojourns(ClockOutQueue(ClockInQueue(j, stays[0].0), stays[0].1), stays[1..])
  }

  function TotalStay(stays: seq<(int, int)>): int
    decreases |stays|
  {
    if stays == [] then 0 else stays[0].1 - stays[0].0 + TotalStay(stays[1..])
  }

  /** When every sojourn is clocked in and then out, the waiting time grows by
      exactly the total length of the sojourns, whatever the old wait-start. */
  lemma {:induction false} SojournsAccumulate(j: Job, stays: seq<(int, int)>)
    ensures Sojourns(j, stays).waitingTime == j.waitingTime + TotalStay(stays)
    ensures SameIdentity(Sojourns(j, stays), j)
    decreases |stays|
  {
    if stays != [] {
      SojournsAccumulate(ClockOutQueue(ClockInQueue(j, stays[0].0), stays[0].1), stays[1..]);
    }
  }
}
