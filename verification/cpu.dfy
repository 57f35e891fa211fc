/**
 The single processor: at most one job, a quantum countdown and a busy flag.
 */
module Processor {
  import opened Wrappers
  import opened Jobs

  datatype Cpu = Cpu(currentJob: Option<Job>, quantumClock: int, busy: bool)

  /** The busy flag is set exactly when a job is held. */
  predicate Consistent(c: Cpu)
  {
    c.busy <==> c.currentJob.Some?
  }

  function Pow2(e: nat): nat
  {
    if e == 0 then 1 else 2 * Pow2(e - 1)
  }

  /** The time slice of a level: `Math.pow(2, level + 1)`, i.e. 2, 4, 8 or 16. */
  function Quantum(l: Level): (q: int)
    ensures q == if l == 0 then 2 else if l == 1 then 4 else if l == 2 then 8 else 16
  {
    assert Pow2(1) == 2 && Pow2(2) == 4 && Pow2(3) == 8 && Pow2(4) == 16;
    assert l == 0 || l == 1 || l == 2 || l == 3;
    Pow2(l + 1)
  }

  function NewCpu(): (c: Cpu)
    ensures Consistent(c) && !c.busy && c.quantumClock == 0
  {
    Cpu(None, 0, false)
  }

  function IsBusy(c: Cpu): (b: bool)
    requires Consistent(c)
    ensures b <==> c.currentJob.Some?
  {
    c.busy
  }

  /** The held job has no time left; false when nothing is held. */
  function JobFinished(c: Cpu): (b: bool)
    ensures b <==> c.currentJob.Some? && c.currentJob.value.cpuTimeRemaining == 0
  {
    match c.currentJob
    case Some(j) => j.cpuTimeRemaining == 0
    case None => false
  }

  /** The quantum has run out; false when nothing is held. */
  function QuantumClockDone(c: Cpu): (b: bool)
    ensures b <==> c.currentJob.Some? && c.quantumClock == 0
  {
    match c.currentJob
    case Some(_) => c.quantumClock == 0
    case None => false
  }

  /** Forces the held job out, demoted by one level (capped), and leaves the
      processor idle. */
  function PreemptCpu(c: Cpu): (r: (Cpu, Job))
    requires c.currentJob.Some?
    ensures Consistent(r.0) && !r.0.busy && r.0.quantumClock == 0
    ensures r.1 == IncCurrentQueue(c.currentJob.value)
  {
    var temp := IncCurrentQueue(c.currentJob.value);
    (Cpu(None, 0, false), temp)
  }

  /** Takes out a finished job, stamping its departure time; its level is
      left as it was. */
  function ClearCpu(c: Cpu, clockTime: int): (r: (Cpu, Job))
    requires c.currentJob.Some?
    ensures Consistent(r.0) && !r.0.busy && r.0.quantumClock == 0
    ensures r.1 == c.currentJob.value.(timeInSystem := clockTime)
  {
    var temp := c.currentJob.value;
    (Cpu(None, 0, false), SetTimeInSystem(temp, clockTime))
  }

  /** One tick of service: the quantum and the held job's remaining time both
      drop by one. */
  function DecClocks(c: Cpu): (r: Cpu)
    requires c.currentJob.Some?
    ensures r.busy == c.busy && r.quantumClock == c.quantumClock - 1
    ensures r.currentJob == Some(DecTimeRemaining(c.currentJob.value))
  {
    c.(quantumClock := c.quantumClock - 1,
       currentJob := Some(DecTimeRemaining(c.currentJob.value)))
  }

  /** Installs a job with the quantum of its level. The Java method does not
      check that the processor is idle; the scheduler only calls it then. */
  function SubmitJob(c: Cpu, job: Job): (r: Cpu)
    ensures Consistent(r) && r.busy && r.currentJob == Some(job)
    ensures r.quantumClock == Pow2(job.currentQueue + 1)
  {
    Cpu(Some(job), Quantum(job.currentQueue), true)
  }

  /** `n` successive ticks of service, with no check in between. */
  function Serve(c: Cpu, n: nat): Cpu
    requires c.currentJob.Some?
    decreases n
  {
    if n == 0 then c else Serve(DecClocks(c), n - 1)
  }

  /** Service counts the quantum and the held job's remaining time down in
      lock step and touches nothing else. */
  lemma {:induction false} ServeCountsDown(c: Cpu, n: nat)
    requires c.currentJob.Some?
    ensures Serve(c, n).busy == c.busy && Serve(c, n).quantumClock == c.quantumClock - n
    ensures Serve(c, n).currentJob ==
              Some(c.currentJob.value.(cpuTimeRemaining := c.currentJob.value.cpuTimeRemaining - n))
    decreases n
  {
    if n > 0 {
      var m: nat := n - 1;
      ServeCountsDown(DecClocks(c), m);
    }
  }

  /** A job installed at level l sees its quantum run out after exactly
      2^(l+1) ticks and is finished after exactly its remaining time. */
  lemma QuantumAndFinish(c: Cpu, job: Job, n: nat)
    ensures QuantumClockDone(Serve(SubmitJob(c, job), n)) <==> n == Quantum(job.currentQueue)
    ensures JobFinished(Serve(SubmitJob(c, job), n)) <==> n == job.cpuTimeRemaining
  {
    ServeCountsDown(SubmitJob(c, job), n);
  }

  /** The finish test is `== 0` and the decrement has no floor, so, with
      unbounded integers, a held job whose remaining time is already 0 or
      less is never seen to finish once it is served: its remaining time
      only moves further below 0. */
  lemma NonPositiveNeverFinishes(c: Cpu, n: nat)
    requires c.currentJob.Some? && c.currentJob.value.cpuTimeRemaining <= 0
    requires n >= 1
    ensures !JobFinished(Serve(c, n))
    ensures Serve(c, n).currentJob.Some? && Serve(c, n).currentJob.value.cpuTimeRemaining < 0
  {
    ServeCountsDown(c, n);
  }
}
