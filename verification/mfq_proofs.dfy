/**
 Properties of the scheduler that relate several steps: conservation of jobs,
 the invariant a tick preserves, accounting over whole runs, and the runs
 that never end.
 */
module SchedulerProofs {
  import opened Wrappers
  import opened Queues
  import opened Jobs
  import opened Processor
  import opened Scheduler

  // ---------- Where the jobs are

  /** What identifies a job and never changes: pid, arrival time and
      required CPU time. */
  type Identity = (int, int, int)

  function Id(j: Job): Identity
  {
    (j.pid, j.arrivalTime, j.cpuTimeRequired)
  }

  function IdsOf(js: seq<Job>): multiset<Identity>
  {
    if js == [] then multiset{} else multiset{Id(js[0])} + IdsOf(js[1..])
  }

  lemma {:induction false} IdsOfAppend(a: seq<Job>, b: seq<Job>)
    ensures IdsOf(a + b) == IdsOf(a) + IdsOf(b)
    decreases |a|
  {
    if a == [] {
      assert a + b == b;
    } else {
      assert (a + b)[1..] == a[1..] + b;
      IdsOfAppend(a[1..], b);
    }
  }

  ghost function LevelIds(lv: seq<Queue<Job>>): multiset<Identity>
    requires LevelsValid(lv)
  {
    IdsOf(Contents(lv[0])) + IdsOf(Contents(lv[1])) + IdsOf(Contents(lv[2])) + IdsOf(Contents(lv[3]))
  }

  function CpuIds(c: Cpu): multiset<Identity>
  {
    if c.currentJob.Some? then multiset{Id(c.currentJob.value)} else multiset{}
  }

  /** The identities of every job still in the system: arrival buffer, the four
      levels and the CPU. */
  ghost function JobsIn(s: Mfq): multiset<Identity>
    requires WellFormed(s)
  {
    IdsOf(Contents(s.jobQueue)) + LevelIds(s.queueLevel) + CpuIds(s.cpu)
  }

  /** The loop condition holds exactly while some job is still in the system. */
  lemma RunningIffJobsRemain(s: Mfq)
    requires WellFormed(s)
    ensures Running(s) <==> JobsIn(s) != multiset{}
  {
    var lv := s.queueLevel;
    if !Running(s) {
      assert Contents(lv[0]) == [] && Contents(lv[1]) == [] && Contents(lv[2]) == [] && Contents(lv[3]) == [];
    } else if Contents(s.jobQueue) != [] {
      var js: seq<Job> := Contents(s.jobQueue);
      assert Id(js[0]) in IdsOf(js);
    } else if s.cpu.currentJob.Some? {
      assert Id(s.cpu.currentJob.value) in CpuIds(s.cpu);
    } else {
      var m := LowestNonEmptyIndex(lv);
      var js: seq<Job> := Contents(lv[m]);
      assert Id(js[0]) in IdsOf(js);
    }
  }

  /** Replacing one level queue changes the level identities by exactly the
      difference between the old and the new queue. */
  lemma LevelIdsUpdate(lv: seq<Queue<Job>>, lv': seq<Queue<Job>>, m: int)
    requires LevelsValid(lv) && LevelsValid(lv') && 0 <= m < MaxQueueLevel
    requires forall k :: 0 <= k < MaxQueueLevel && k != m ==> lv'[k] == lv[k]
    ensures LevelIds(lv') + IdsOf(Contents(lv[m])) == LevelIds(lv) + IdsOf(Contents(lv'[m]))
  {
    var a, b, c, d := IdsOf(Contents(lv[0])), IdsOf(Contents(lv[1])), IdsOf(Contents(lv[2])), IdsOf(Contents(lv[3]));
    var a', b', c', d' := IdsOf(Contents(lv'[0])), IdsOf(Contents(lv'[1])), IdsOf(Contents(lv'[2])), IdsOf(Contents(lv'[3]));
    Swap4(a, b, c, d, a', b', c', d', IdsOf(Contents(lv[m])), IdsOf(Contents(lv'[m])), m);
  }

  // ---------- Multiset algebra, kept apart from the scheduler's terms

  /** Replacing the m-th of four multisets, as an equation without subtraction. */
  lemma Swap4(a: multiset<Identity>, b: multiset<Identity>, c: multiset<Identity>, d: multiset<Identity>,
              a': multiset<Identity>, b': multiset<Identity>, c': multiset<Identity>, d': multiset<Identity>,
              o: multiset<Identity>, n: multiset<Identity>, m: int)
    requires 0 <= m < 4
    requires a' == (if m == 0 then n else a) && b' == (if m == 1 then n else b)
    requires c' == (if m == 2 then n else c) && d' == (if m == 3 then n else d)
    requires o == (if m == 0 then a else if m == 1 then b else if m == 2 then c else d)
    ensures (a' + b' + c' + d') + o == (a + b + c + d) + n
  {
  }

  /** Adding the same multiset to both sides can be undone. */
  lemma Cancel(x: multiset<Identity>, y: multiset<Identity>, o: multiset<Identity>)
    requires x + o == y + o
    ensures x == y
  {
    assert x == (x + o) - o;
    assert y == (y + o) - o;
  }

  /** One element p left the levels l for the CPU. */
  lemma MoveOut(l': multiset<Identity>, l: multiset<Identity>, o: multiset<Identity>, p: Identity)
    requires l' + (multiset{p} + o) == l + o
    ensures l' + multiset{p} == l + multiset{}
  {
    assert l' + (multiset{p} + o) == (l' + multiset{p}) + o;
    Cancel(l' + multiset{p}, l, o);
  }

  /** One element p joined the levels l. */
  lemma MoveIn(l': multiset<Identity>, l: multiset<Identity>, o: multiset<Identity>, p: Identity)
    requires l' + o == l + (o + multiset{p})
    ensures l' == l + multiset{p}
  {
    assert l + (o + multiset{p}) == (l + multiset{p}) + o;
    Cancel(l', l + multiset{p}, o);
  }

  lemma AdmitAlgebra(b': multiset<Identity>, l': multiset<Identity>, c: multiset<Identity>,
                     b: multiset<Identity>, l: multiset<Identity>, p: Identity)
    requires b == multiset{p} + b' && l' == l + multiset{p}
    ensures b' + l' + c == b + l + c
  {
  }

  lemma PreemptAlgebra(b: multiset<Identity>, l': multiset<Identity>, c': multiset<Identity>,
                       lmid: multiset<Identity>, l: multiset<Identity>, p: Identity)
    requires l' + c' == lmid + multiset{} && lmid == l + multiset{p}
    ensures b + l' + c' == b + l + multiset{p}
  {
    assert b + l' + c' == b + (l' + c');
  }

  lemma DepartAlgebra(b: multiset<Identity>, l': multiset<Identity>, c': multiset<Identity>, l: multiset<Identity>, p: Identity)
    requires l' + c' == l + multiset{}
    ensures b + l + multiset{p} == (b + l' + c') + multiset{p}
  {
    assert b + l' + c' == b + (l' + c');
  }

  lemma DispatchAlgebra(b: multiset<Identity>, l': multiset<Identity>, c': multiset<Identity>, l: multiset<Identity>, c: multiset<Identity>)
    requires l' + c' == l + c
    ensures b + l + c == (b + l' + c') + multiset{}
  {
    assert b + l' + c' == b + (l' + c');
  }

  lemma Chain(x: multiset<Identity>, y: multiset<Identity>, z: multiset<Identity>, d: multiset<Identity>, e: multiset<Identity>, de: multiset<Identity>)
    requires x == y + d && y == z + e && de == d + e
    ensures x == z + de
  {
  }

  lemma AddNothing(x: multiset<Identity>)
    ensures x == x + multiset{}
  {
  }

  // ---------- Conservation, operation by operation

  lemma IdsOfCons(js: seq<Job>)
    requires js != []
    ensures IdsOf(js) == multiset{Id(js[0])} + IdsOf(js[1..])
  {
  }

  lemma IdsOfSnoc(js: seq<Job>, j: Job)
    ensures IdsOf(js + [j]) == IdsOf(js) + multiset{Id(j)}
  {
    IdsOfAppend(js, [j]);
    assert [j][1..] == [];
  }

  /** Dispatch onto an idle CPU moves a job and never creates or loses one. */
  lemma DispatchConserves(c: Cpu, lv: seq<Queue<Job>>, clock: int)
    requires LevelsValid(lv) && Consistent(c) && !c.busy
    ensures LevelIds(SubmitQueuedJob(c, lv, clock).1) + CpuIds(SubmitQueuedJob(c, lv, clock).0) == LevelIds(lv) + CpuIds(c)
  {
    var r := SubmitQueuedJob(c, lv, clock);
    if !AllEmpty(lv) {
      var m := LowestNonEmptyIndex(lv);
      assert DispatchedFrom(c, lv, clock, m, r);
      var js := Contents(lv[m]);
      LevelIdsUpdate(lv, r.1, m);
      IdsOfCons(js);
      assert CpuIds(r.0) == multiset{Id(js[0])};
      assert CpuIds(c) == multiset{};
      MoveOut(LevelIds(r.1), LevelIds(lv), IdsOf(js[1..]), Id(js[0]));
    }
  }

  /** A witness for the highest-priority non-empty level. */
  lemma LowestNonEmptyIndex(lv: seq<Queue<Job>>) returns (m: int)
    requires LevelsValid(lv) && !AllEmpty(lv)
    ensures LowestNonEmpty(lv, m)
  {
    if Contents(lv[0]) != [] { m := 0; }
    else if Contents(lv[1]) != [] { m := 1; }
    else if Contents(lv[2]) != [] { m := 2; }
    else { m := 3; }
  }

  lemma AdmitConserves(s: Mfq)
    requires WellFormed(s)
    ensures JobsIn(AdmitArrival(s).0) == JobsIn(s)
  {
    if ArrivalDue(s) {
      var r := AdmitArrival(s).0;
      var js := Contents(s.jobQueue);
      var j := js[0];
      var l := j.currentQueue;
      LevelIdsUpdate(s.queueLevel, r.queueLevel, l);
      IdsOfSnoc(Contents(s.queueLevel[l]), j);
      MoveIn(LevelIds(r.queueLevel), LevelIds(s.queueLevel), IdsOf(Contents(s.queueLevel[l])), Id(j));
      IdsOfCons(js);
      AdmitAlgebra(IdsOf(js[1..]), LevelIds(r.queueLevel), CpuIds(s.cpu),
                   IdsOf(js), LevelIds(s.queueLevel), Id(j));
    }
  }

  lemma PreemptConserves(s: Mfq)
    requires WellFormed(s) && s.cpu.currentJob.Some?
    ensures JobsIn(Preempt(s)) == JobsIn(s)
  {
    var r := Preempt(s);
    var j := ClockInQueue(IncCurrentQueue(s.cpu.currentJob.value), s.clock);
    var l := j.currentQueue;
    var lv := s.queueLevel[l := Insert(s.queueLevel[l], j)];
    LevelIdsUpdate(s.queueLevel, lv, l);
    IdsOfSnoc(Contents(s.queueLevel[l]), j);
    MoveIn(LevelIds(lv), LevelIds(s.queueLevel), IdsOf(Contents(s.queueLevel[l])), Id(j));
    DispatchConserves(NewCpu(), lv, s.clock);
    assert CpuIds(s.cpu) == multiset{Id(j)};
    PreemptAlgebra(IdsOf(Contents(s.jobQueue)), LevelIds(r.queueLevel), CpuIds(r.cpu),
                   LevelIds(lv), LevelIds(s.queueLevel), Id(j));
  }

  lemma DepartConserves(s: Mfq)
    requires WellFormed(s) && JobFinished(s.cpu)
    ensures JobsIn(s) == JobsIn(Depart(s).0) + multiset{Id(s.cpu.currentJob.value)}
  {
    var r := Depart(s).0;
    DispatchConserves(NewCpu(), s.queueLevel, s.clock);
    DepartAlgebra(IdsOf(Contents(s.jobQueue)), LevelIds(r.queueLevel), CpuIds(r.cpu),
                  LevelIds(s.queueLevel), Id(s.cpu.currentJob.value));
  }

  lemma FinishConserves(s: Mfq)
    requires WellFormed(s) && s.cpu.currentJob.Some?
    ensures JobsIn(s) == JobsIn(FinishCheck(s).0) + IdsOf(Departures(FinishCheck(s).1))
  {
    var r := FinishCheck(s);
    if JobFinished(s.cpu) {
      DepartConserves(s);
      SingleEvent(r.1[0]);
      IdsOfSnoc([], r.1[0].job);
      assert [] + [r.1[0].job] == [r.1[0].job];
    } else {
      AddNothing(JobsIn(s));
    }
  }

  lemma PreemptCheckConserves(s: Mfq)
    requires WellFormed(s) && (s.cpu.currentJob.Some? || AllEmpty(s.queueLevel))
    ensures JobsIn(PreemptCheck(s)) == JobsIn(s)
  {
    if QuantumClockDone(s.cpu) || Contents(s.queueLevel[0]) != [] {
      PreemptConserves(s);
    }
  }

  lemma ServeConserves(s: Mfq)
    requires WellFormed(s)
    ensures JobsIn(s) == JobsIn(ServeStep(s).0) + IdsOf(Departures(ServeStep(s).1))
  {
    if s.cpu.busy {
      var s1 := s.(cpu := DecClocks(s.cpu));
      assert CpuIds(s1.cpu) == CpuIds(s.cpu);
      var f := FinishCheck(s1);
      FinishConserves(s1);
      PreemptCheckConserves(f.0);
      assert ServeStep(s) == ServeCpu(s);
    } else {
      var r := ServeIdle(s);
      DispatchConserves(s.cpu, s.queueLevel, s.clock);
      DispatchAlgebra(IdsOf(Contents(s.jobQueue)), LevelIds(r.queueLevel), CpuIds(r.cpu),
                      LevelIds(s.queueLevel), CpuIds(s.cpu));
    }
  }

  /** Conservation over one tick: every job that was in the system is still
      in exactly as many places, except the one that departed. */
  lemma TickConserves(s: Mfq)
    requires WellFormed(s)
    ensures JobsIn(s) == JobsIn(TickSimulation(s).0) + IdsOf(Departures(TickSimulation(s).1))
  {
    var s1, arrived, s2, departed := TickParts(s);
    AdmitConserves(s.(clock := s.clock + 1));
    ServeConserves(s1);
    EventsSplit(arrived, departed);
    assert Departures(arrived) + Departures(departed) == Departures(departed);
  }

  // ---------- The invariant a tick keeps

  /** Jobs waiting at level k carry level k and have work left. */
  ghost predicate LevelOk(js: seq<Job>, k: int)
  {
    forall i :: 0 <= i < |js| ==> js[i].currentQueue == k && js[i].cpuTimeRemaining >= 1
  }

  ghost predicate LevelsOk(lv: seq<Queue<Job>>)
    requires LevelsValid(lv)
  {
    forall k :: 0 <= k < MaxQueueLevel ==> LevelOk(Contents(lv[k]), k)
  }

  /** A held job has work left and a quantum in [1, 2^(level+1)]: the CPU is
      either idle or holding a job with time left on its quantum. */
  ghost predicate CpuOk(c: Cpu)
  {
    Consistent(c) &&
    (c.currentJob.Some? ==>
       var j := c.currentJob.value;
       j.cpuTimeRemaining >= 1 && 1 <= c.quantumClock <= Pow2(j.currentQueue + 1))
  }

  /** Jobs still in the arrival buffer are untouched and need some work. */
  ghost predicate BufferOk(js: seq<Job>)
  {
    forall i :: 0 <= i < |js| ==> IsFresh(js[i]) && js[i].cpuTimeRequired >= 1
  }

  ghost predicate Inv(s: Mfq)
  {
    && WellFormed(s)
    && BufferOk(Contents(s.jobQueue))
    && LevelsOk(s.queueLevel)
    && CpuOk(s.cpu)
  }

  /** A freshly loaded simulation satisfies the invariant when every job needs
      at least one unit of work. A job needing 0 or fewer units is excluded
      because the CPU's finish test is `== 0` after a decrement with no floor:
      with unbounded integers such a job would never depart
      (`Processor.NonPositiveNeverFinishes`). */
  lemma LoadEstablishesInv(descs: seq<Descriptor>)
    requires forall i :: 0 <= i < |descs| ==> descs[i].cpuTimeRequired >= 1
    ensures Inv(Load(descs))
  {
    JobsOfIndex(descs);
  }

  lemma DispatchKeepsInv(c: Cpu, lv: seq<Queue<Job>>, clock: int)
    requires LevelsValid(lv) && LevelsOk(lv) && Consistent(c) && !c.busy
    ensures var r := SubmitQueuedJob(c, lv, clock);
            LevelsOk(r.1) && CpuOk(r.0)
  {
    var r := SubmitQueuedJob(c, lv, clock);
    if !AllEmpty(lv) {
      var m := LowestNonEmptyIndex(lv);
      assert DispatchedFrom(c, lv, clock, m, r);
      assert LevelOk(Contents(lv[m]), m);
      assert LevelOk(Contents(r.1[m]), m);
    }
  }

  lemma LevelOkAppend(js: seq<Job>, k: int, j: Job)
    requires LevelOk(js, k) && j.currentQueue == k && j.cpuTimeRemaining >= 1
    ensures LevelOk(js + [j], k)
  {
  }

  lemma BufferOkTail(js: seq<Job>)
    requires BufferOk(js) && js != []
    ensures BufferOk(js[1..])
  {
    forall i | 0 <= i < |js[1..]|
      ensures IsFresh(js[1..][i]) && js[1..][i].cpuTimeRequired >= 1
    {
      assert js[1..][i] == js[i + 1];
    }
  }

  lemma AdmitKeepsInv(s: Mfq)
    requires Inv(s)
    ensures Inv(AdmitArrival(s).0)
    ensures ArrivalDue(s) ==> Contents(s.jobQueue)[0].currentQueue == 0
  {
    if ArrivalDue(s) {
      var r := AdmitArrival(s).0;
      var j := Contents(s.jobQueue)[0];
      assert IsFresh(j);
      BufferOkTail(Contents(s.jobQueue));
      LevelOkAppend(Contents(s.queueLevel[0]), 0, j);
      forall k | 0 < k < MaxQueueLevel
        ensures LevelOk(Contents(r.queueLevel[k]), k)
      {
        assert r.queueLevel[k] == s.queueLevel[k];
      }
      assert LevelsOk(r.queueLevel);
    }
  }

  lemma PreemptKeepsInv(s: Mfq)
    requires WellFormed(s) && LevelsOk(s.queueLevel) && s.cpu.currentJob.Some?
    requires s.cpu.currentJob.value.cpuTimeRemaining >= 1
    ensures LevelsOk(Preempt(s).queueLevel) && CpuOk(Preempt(s).cpu)
  {
    var j := ClockInQueue(IncCurrentQueue(s.cpu.currentJob.value), s.clock);
    var lv := s.queueLevel[j.currentQueue := Insert(s.queueLevel[j.currentQueue], j)];
    LevelOkAppend(Contents(s.queueLevel[j.currentQueue]), j.currentQueue, j);
    assert LevelsOk(lv);
    DispatchKeepsInv(NewCpu(), lv, s.clock);
  }

  lemma ServeKeepsInv(s: Mfq)
    requires Inv(s)
    ensures Inv(ServeStep(s).0)
  {
    if s.cpu.busy {
      var s1 := s.(cpu := DecClocks(s.cpu));
      if JobFinished(s1.cpu) {
        var s2 := Depart(s1).0;
        DispatchKeepsInv(NewCpu(), s1.queueLevel, s1.clock);
        if QuantumClockDone(s2.cpu) || !IsEmpty(s2.queueLevel[0]) {
          PreemptKeepsInv(s2);
        }
      } else if QuantumClockDone(s1.cpu) || !IsEmpty(s1.queueLevel[0]) {
        PreemptKeepsInv(s1);
      }
      assert ServeStep(s) == ServeCpu(s);
    } else {
      DispatchKeepsInv(s.cpu, s.queueLevel, s.clock);
    }
  }

  /** The invariant holds after every tick: levels stay in [0, 3] and each
      queue holds only jobs of its own level, no job runs out of work while
      still queued or held, and the quantum of a held job is positive and at
      most the quantum its level grants. */
  lemma TickPreservesInv(s: Mfq)
    requires Inv(s)
    ensures Inv(TickSimulation(s).0)
  {
    var s1, arrived, s2, departed := TickParts(s);
    AdmitKeepsInv(s.(clock := s.clock + 1));
    ServeKeepsInv(s1);
  }

  /** Every job a tick admits joins level 0. */
  lemma ArrivalsJoinLevelZero(s: Mfq)
    requires Inv(s)
    ensures forall i :: 0 <= i < |Arrivals(TickSimulation(s).1)| ==>
              Arrivals(TickSimulation(s).1)[i].currentQueue == 0
  {
    TickAdmission(s);
  }

  // ---------- Whole runs

  /** `Run` unfolded by one tick; `m` names the ticks that remain. */
  lemma RunStep(s: Mfq, n: nat, m: nat)
    requires WellFormed(s) && m == n - 1
    ensures Run(s, n).0 == Run(TickSimulation(s).0, m).0
    ensures Run(s, n).1 == TickSimulation(s).1 + Run(TickSimulation(s).0, m).1
  {
    var t := TickSimulation(s);
    assert Run(s, n).0 == Run(t.0, n - 1).0;
    assert Run(s, n).1 == t.1 + Run(t.0, n - 1).1;
  }

  /** `Simulate` unfolded by one tick, when it neither stops at once nor runs
      out of fuel; `f` names the fuel that remains. */
  lemma SimulateStep(s: Mfq, fuel: nat, f: int)
    requires WellFormed(s) && Running(s) && Simulate(s, fuel).Some? && f == fuel - 1
    ensures f >= 0 && Simulate(TickSimulation(s).0, f).Some?
    ensures Simulate(s, fuel).value.0 == Simulate(TickSimulation(s).0, f).value.0
    ensures Simulate(s, fuel).value.1 == TickSimulation(s).1 + Simulate(TickSimulation(s).0, f).value.1
  {
  }

  /** The departures of two event lists in a row, and their sums. */
  lemma DeparturesAppend(e1: seq<Event>, e2: seq<Event>)
    ensures IdsOf(Departures(e1 + e2)) == IdsOf(Departures(e1)) + IdsOf(Departures(e2))
    ensures |Departures(e1 + e2)| == |Departures(e1)| + |Departures(e2)|
    ensures TurnaroundSum(Departures(e1 + e2)) == TurnaroundSum(Departures(e1)) + TurnaroundSum(Departures(e2))
    ensures WaitingSum(Departures(e1 + e2)) == WaitingSum(Departures(e1)) + WaitingSum(Departures(e2))
  {
    EventsSplit(e1, e2);
    IdsOfAppend(Departures(e1), Departures(e2));
    SumsAppend(Departures(e1), Departures(e2));
  }

  lemma {:induction false} SumsAppend(a: seq<Job>, b: seq<Job>)
    ensures TurnaroundSum(a + b) == TurnaroundSum(a) + TurnaroundSum(b)
    ensures WaitingSum(a + b) == WaitingSum(a) + WaitingSum(b)
    decreases |a|
  {
    if a == [] {
      assert a + b == b;
    } else {
      assert (a + b)[1..] == a[1..] + b;
      SumsAppend(a[1..], b);
    }
  }

  /** Over any number of ticks, the jobs in the system at the start are those
      still in it plus those that departed. */
  lemma {:induction false} RunConserves(s: Mfq, n: nat)
    requires WellFormed(s)
    ensures JobsIn(s) == JobsIn(Run(s, n).0) + IdsOf(Departures(Run(s, n).1))
    decreases n
  {
    if n == 0 {
      AddNothing(JobsIn(s));
    } else {
      var m: nat := n - 1;
      var t := TickSimulation(s);
      RunStep(s, n, m);
      TickConserves(s);
      RunConserves(t.0, m);
      var rest := Run(t.0, m);
      DeparturesAppend(t.1, rest.1);
      Chain(JobsIn(s), JobsIn(t.0), JobsIn(rest.0),
            IdsOf(Departures(t.1)), IdsOf(Departures(rest.1)), IdsOf(Departures(t.1 + rest.1)));
    }
  }

  /** Over any number of ticks, the accumulators grow by exactly the count,
      the turnaround times and the waiting times of the departed jobs. */
  lemma {:induction false} RunAccounting(s: Mfq, n: nat)
    requires WellFormed(s)
    ensures var r := Run(s, n);
            && r.0.stats.totalNumOfJobs == s.stats.totalNumOfJobs + |Departures(r.1)|
            && r.0.stats.totalJobTime == s.stats.totalJobTime + TurnaroundSum(Departures(r.1))
            && r.0.stats.waitSum == s.stats.waitSum + WaitingSum(Departures(r.1))
    decreases n
  {
    if n > 0 {
      var m: nat := n - 1;
      var t := TickSimulation(s);
      RunStep(s, n, m);
      TickAccounting(s);
      RunAccounting(t.0, m);
      DeparturesAppend(t.1, Run(t.0, m).1);
    }
  }

  /** Conservation for the loop of `runSimulation`, when it ends. */
  lemma {:induction false} SimulateConserves(s: Mfq, fuel: nat)
    requires WellFormed(s) && Simulate(s, fuel).Some?
    ensures JobsIn(s) == JobsIn(Simulate(s, fuel).value.0) + IdsOf(Departures(Simulate(s, fuel).value.1))
    decreases fuel
  {
    if !Running(s) {
      AddNothing(JobsIn(s));
    } else {
      var f := fuel - 1;
      var t := TickSimulation(s);
      SimulateStep(s, fuel, f);
      TickConserves(s);
      SimulateConserves(t.0, f);
      var rest := Simulate(t.0, f).value;
      DeparturesAppend(t.1, rest.1);
      Chain(JobsIn(s), JobsIn(t.0), JobsIn(rest.0),
            IdsOf(Departures(t.1)), IdsOf(Departures(rest.1)), IdsOf(Departures(t.1 + rest.1)));
    }
  }

  /** The accumulators of the loop of `runSimulation`, when it ends. */
  lemma {:induction false} SimulateAccounting(s: Mfq, fuel: nat)
    requires WellFormed(s) && Simulate(s, fuel).Some?
    ensures var r := Simulate(s, fuel).value;
            && r.0.stats.totalNumOfJobs == s.stats.totalNumOfJobs + |Departures(r.1)|
            && r.0.stats.totalJobTime == s.stats.totalJobTime + TurnaroundSum(Departures(r.1))
            && r.0.stats.waitSum == s.stats.waitSum + WaitingSum(Departures(r.1))
    decreases fuel
  {
    if Running(s) {
      var f := fuel - 1;
      var t := TickSimulation(s);
      SimulateStep(s, fuel, f);
      TickAccounting(s);
      SimulateAccounting(t.0, f);
      DeparturesAppend(t.1, Simulate(t.0, f).value.1);
    }
  }

  /** The jobs of a freshly loaded simulation are those of the input. */
  lemma LoadedJobs(descs: seq<Descriptor>)
    ensures JobsIn(Load(descs)) == IdsOf(JobsOf(descs))
  {
    var s := Load(descs);
    assert LevelIds(s.queueLevel) == multiset{};
    assert CpuIds(s.cpu) == multiset{};
  }

  /** A simulation that ends has sent every loaded job out exactly once (as
      many times as its identity occurs in the input), and its totals are the sums
      over the departures. */
  lemma SimulationAccountsForAllJobs(descs: seq<Descriptor>, fuel: nat)
    requires Simulate(Load(descs), fuel).Some?
    ensures var r := Simulate(Load(descs), fuel).value;
            && IdsOf(Departures(r.1)) == IdsOf(JobsOf(descs))
            && r.0.stats.totalNumOfJobs == |Departures(r.1)|
            && r.0.stats.totalJobTime == TurnaroundSum(Departures(r.1))
            && r.0.stats.waitSum == WaitingSum(Departures(r.1))
  {
    var s := Load(descs);
    SimulateConserves(s, fuel);
    SimulateAccounting(s, fuel);
    var r := Simulate(s, fuel).value;
    RunningIffJobsRemain(r.0);
    LoadedJobs(descs);
    NothingPlus(IdsOf(Departures(r.1)));
  }

  lemma NothingPlus(x: multiset<Identity>)
    ensures multiset{} + x == x
  {
  }

  // ---------- Runs that never end
  //
  // The clock is an unbounded integer here. Java's `int` clock wraps round
  // after 2^32 ticks, and the `==` test can then match a missed arrival
  // again; so "never" below means "not while the clock does not wrap".

  /** A tick leaves a buffer whose head is already behind the clock as it is. */
  lemma TickKeepsMissed(s: Mfq)
    requires WellFormed(s) && Contents(s.jobQueue) != []
    requires Contents(s.jobQueue)[0].arrivalTime <= s.clock
    ensures Contents(TickSimulation(s).0.jobQueue) == Contents(s.jobQueue)
  {
    TickAdmission(s);
  }

  /** `Simulate` gives up when the loop is still running after its last tick;
      `f` names the fuel that remains. */
  lemma SimulateNone(s: Mfq, fuel: nat, f: int)
    requires f == fuel - 1 && WellFormed(s) && Running(s)
    requires fuel == 0 || Simulate(TickSimulation(s).0, f) == None
    ensures Simulate(s, fuel) == None
  {
  }

  /** With an unbounded clock, once the clock has passed the arrival time of
      the buffer's head, that job is never admitted: ticks leave the buffer
      exactly as it is, so the loop condition stays true. */
  lemma {:induction false} MissedArrivalIsNeverAdmitted(s: Mfq, n: nat)
    requires WellFormed(s) && Contents(s.jobQueue) != []
    requires Contents(s.jobQueue)[0].arrivalTime <= s.clock
    ensures Contents(Run(s, n).0.jobQueue) == Contents(s.jobQueue)
    ensures Running(Run(s, n).0)
    decreases n
  {
    if n > 0 {
      var m: nat := n - 1;
      TickKeepsMissed(s);
      RunStep(s, n, m);
      MissedArrivalIsNeverAdmitted(TickSimulation(s).0, m);
    }
  }

  /** ... and so, with an unbounded clock, `runSimulation` does not return
      within any number of ticks. */
  lemma {:induction false} MissedArrivalNeverEnds(s: Mfq, fuel: nat)
    requires WellFormed(s) && Contents(s.jobQueue) != []
    requires Contents(s.jobQueue)[0].arrivalTime <= s.clock
    ensures Simulate(s, fuel) == None
    decreases fuel
  {
    var f := fuel - 1;
    if fuel > 0 {
      TickKeepsMissed(s);
      MissedArrivalNeverEnds(TickSimulation(s).0, f);
    }
    SimulateNone(s, fuel, f);
  }

  /** With an unbounded clock, a job with arrival time 0 at the head of the
      input is never admitted, because the first tick already compares
      against clock 1. */
  lemma ArrivalAtZeroNeverEnds(descs: seq<Descriptor>, fuel: nat)
    requires descs != [] && descs[0].arrivalTime == 0
    ensures Simulate(Load(descs), fuel) == None
  {
    MissedArrivalNeverEnds(Load(descs), fuel);
  }

  /** Two jobs sharing an arrival time: the first is admitted on that tick, the
      second is then behind the clock and, with an unbounded clock, the
      simulation never ends. */
  lemma SharedArrivalNeverEnds(s: Mfq, fuel: nat)
    requires WellFormed(s) && |Contents(s.jobQueue)| >= 2
    requires Contents(s.jobQueue)[0].arrivalTime == s.clock + 1
    requires Contents(s.jobQueue)[1].arrivalTime == s.clock + 1
    ensures Simulate(s, fuel) == None
  {
    var f := fuel - 1;
    if fuel > 0 {
      TickAdmission(s);
      MissedArrivalNeverEnds(TickSimulation(s).0, f);
    }
    SimulateNone(s, fuel, f);
  }

  /** The same for a shared arrival time further ahead: ticks before it
      admit nothing, and on it the first of the pair is admitted alone
      (again with an unbounded clock). */
  lemma {:induction false} SharedAheadNeverEnds(s: Mfq, fuel: nat)
    requires WellFormed(s) && |Contents(s.jobQueue)| >= 2
    requires Contents(s.jobQueue)[0].arrivalTime == Contents(s.jobQueue)[1].arrivalTime
    requires Contents(s.jobQueue)[0].arrivalTime > s.clock
    ensures Simulate(s, fuel) == None
    decreases fuel
  {
    if Contents(s.jobQueue)[0].arrivalTime == s.clock + 1 {
      SharedArrivalNeverEnds(s, fuel);
    } else {
      var f := fuel - 1;
      if fuel > 0 {
        TickAdmission(s);
        SharedAheadNeverEnds(TickSimulation(s).0, f);
      }
      SimulateNone(s, fuel, f);
    }
  }

  /** With an unbounded clock, an input whose first two jobs share an
      arrival time (at least 1, the first clock value compared) never
      finishes. */
  lemma SharedArrivalInInputNeverEnds(descs: seq<Descriptor>, fuel: nat)
    requires |descs| >= 2 && descs[0].arrivalTime == descs[1].arrivalTime >= 1
    ensures Simulate(Load(descs), fuel) == None
  {
    JobsOfIndex(descs);
    SharedAheadNeverEnds(Load(descs), fuel);
  }

  // ---------- Quirks of the tick

  /** With an idle CPU and a non-empty level 0, dispatch takes the head of
      level 0 and leaves the other levels alone. */
  lemma DispatchLevelZero(c: Cpu, lv: seq<Queue<Job>>, clock: int)
    requires LevelsValid(lv) && !c.busy && Contents(lv[0]) != []
    ensures SubmitQueuedJob(c, lv, clock).0.currentJob == Some(ClockOutQueue(Contents(lv[0])[0], clock))
    ensures Contents(SubmitQueuedJob(c, lv, clock).1[0]) == Contents(lv[0])[1..]
    ensures forall k :: 0 < k < MaxQueueLevel ==> SubmitQueuedJob(c, lv, clock).1[k] == lv[k]
  {
    assert LowestNonEmpty(lv, 0);
  }

  /** A departure with jobs waiting at level 0 refills the CPU from level 0. */
  lemma RefillFromLevelZero(t: Mfq)
    requires WellFormed(t) && JobFinished(t.cpu) && Contents(t.queueLevel[0]) != []
    ensures Depart(t).0.cpu.currentJob == Some(ClockOutQueue(Contents(t.queueLevel[0])[0], t.clock))
    ensures Contents(Depart(t).0.queueLevel[0]) == Contents(t.queueLevel[0])[1..]
    ensures Depart(t).0.queueLevel[1] == t.queueLevel[1]
  {
    DispatchLevelZero(NewCpu(), t.queueLevel, t.clock);
  }

  /** The preempt check with a level-0 job held and another waiting at level
      0: the held job goes to the back of level 1 and the waiting one runs. */
  lemma PreemptToLevelOne(t: Mfq)
    requires WellFormed(t) && t.cpu.currentJob.Some? && t.cpu.currentJob.value.currentQueue == 0
    requires Contents(t.queueLevel[0]) != []
    ensures PreemptCheck(t).cpu.currentJob == Some(ClockOutQueue(Contents(t.queueLevel[0])[0], t.clock))
    ensures Contents(PreemptCheck(t).queueLevel[1]) ==
              Contents(t.queueLevel[1]) + [ClockInQueue(IncCurrentQueue(t.cpu.currentJob.value), t.clock)]
  {
    var j := ClockInQueue(IncCurrentQueue(t.cpu.currentJob.value), t.clock);
    var lv := t.queueLevel[1 := Insert(t.queueLevel[1], j)];
    DispatchLevelZero(NewCpu(), lv, t.clock);
  }

  /** The preempt check runs even after a departing job's CPU has just been
      refilled: when two or more jobs wait at level 0, the job dispatched from
      level 0 is demoted to level 1 in the same tick and the next level-0 job
      takes the CPU. */
  lemma PreemptAfterRefill(s: Mfq)
    requires Inv(s) && s.cpu.busy && s.cpu.currentJob.value.cpuTimeRemaining == 1
    requires |Contents(s.queueLevel[0])| >= 2
    ensures var r := ServeCpu(s).0;
            var refilled := ClockOutQueue(Contents(s.queueLevel[0])[0], s.clock);
            var demoted := ClockInQueue(IncCurrentQueue(refilled), s.clock);
            && demoted.currentQueue == 1
            && Contents(r.queueLevel[1]) == Contents(s.queueLevel[1]) + [demoted]
            && r.cpu.currentJob == Some(ClockOutQueue(Contents(s.queueLevel[0])[1], s.clock))
  {
    assert LevelOk(Contents(s.queueLevel[0]), 0);
    var served := s.(cpu := DecClocks(s.cpu));
    RefillFromLevelZero(served);
    var refilled := Depart(served).0;
    PreemptToLevelOne(refilled);
  }

  /** Admission does not clock a job in, and a new job's wait-start stamp is
      0: a job that arrives at an empty system and is dispatched at once has
      waited no time at all, yet is credited with a waiting time equal to its
      arrival clock. */
  lemma FirstSojournFromZero(s: Mfq)
    requires WellFormed(s) && !s.cpu.busy && AllEmpty(s.queueLevel)
    requires Contents(s.jobQueue) != [] && IsFresh(Contents(s.jobQueue)[0])
    requires Contents(s.jobQueue)[0].arrivalTime == s.clock + 1
    ensures TickSimulation(s).0.cpu.currentJob ==
              Some(Contents(s.jobQueue)[0].(waitingTime := s.clock + 1))
  {
    var j := Contents(s.jobQueue)[0];
    var a := AdmitIntoEmpty(s);
    DispatchLevelZero(a.cpu, a.queueLevel, a.clock);
    assert ServeStep(a).0.cpu.currentJob == Some(ClockOutQueue(j, s.clock + 1));
    assert ClockOutQueue(j, s.clock + 1) == j.(waitingTime := s.clock + 1);
  }

  /** The admission half of a tick that starts idle and empty with the
      buffer head due: the head is alone at level 0 and the CPU still idle. */
  lemma AdmitIntoEmpty(s: Mfq) returns (a: Mfq)
    requires WellFormed(s) && !s.cpu.busy && AllEmpty(s.queueLevel)
    requires Contents(s.jobQueue) != [] && IsFresh(Contents(s.jobQueue)[0])
    requires Contents(s.jobQueue)[0].arrivalTime == s.clock + 1
    ensures a == AdmitArrival(s.(clock := s.clock + 1)).0 && WellFormed(a)
    ensures TickSimulation(s).0.cpu == ServeStep(a).0.cpu
    ensures !a.cpu.busy && a.clock == s.clock + 1
    ensures Contents(a.queueLevel[0]) == [Contents(s.jobQueue)[0]]
  {
    a := AdmitArrival(s.(clock := s.clock + 1)).0;
    assert ArrivalDue(s.(clock := s.clock + 1));
  }

  // ---------- Level 0 never holds a job at the end of a tick

  /** Dispatch onto an idle CPU empties a level 0 that held at most one job. */
  lemma DispatchEmptiesLevelZero(c: Cpu, lv: seq<Queue<Job>>, clock: int)
    requires LevelsValid(lv) && !c.busy && |Contents(lv[0])| <= 1
    ensures Contents(SubmitQueuedJob(c, lv, clock).1[0]) == []
  {
    if Contents(lv[0]) != [] {
      DispatchLevelZero(c, lv, clock);
    } else if !AllEmpty(lv) {
      var m := LowestNonEmptyIndex(lv);
      assert DispatchedFrom(c, lv, clock, m, SubmitQueuedJob(c, lv, clock));
    }
  }

  /** Preemption never queues at level 0, since demotion lands at level 1 or
      lower; the refill then empties a level 0 of at most one job. */
  lemma PreemptEmptiesLevelZero(s: Mfq)
    requires WellFormed(s) && s.cpu.currentJob.Some? && |Contents(s.queueLevel[0])| <= 1
    ensures Contents(Preempt(s).queueLevel[0]) == []
  {
    var j := ClockInQueue(IncCurrentQueue(s.cpu.currentJob.value), s.clock);
    var lv := s.queueLevel[j.currentQueue := Insert(s.queueLevel[j.currentQueue], j)];
    assert j.currentQueue >= 1;
    assert lv[0] == s.queueLevel[0];
    DispatchEmptiesLevelZero(NewCpu(), lv, s.clock);
  }

  /** Service, busy or idle, empties a level 0 of at most one job. */
  lemma ServeEmptiesLevelZero(s: Mfq)
    requires WellFormed(s) && |Contents(s.queueLevel[0])| <= 1
    ensures Contents(ServeStep(s).0.queueLevel[0]) == []
  {
    if s.cpu.busy {
      var t := s.(cpu := DecClocks(s.cpu));
      var f := FinishCheck(t).0;
      if JobFinished(t.cpu) {
        DispatchEmptiesLevelZero(NewCpu(), t.queueLevel, t.clock);
      }
      assert |Contents(f.queueLevel[0])| <= 1;
      if QuantumClockDone(f.cpu) || Contents(f.queueLevel[0]) != [] {
        PreemptEmptiesLevelZero(f);
      }
      assert ServeStep(s).0 == PreemptCheck(f);
    } else {
      DispatchEmptiesLevelZero(s.cpu, s.queueLevel, s.clock);
    }
  }

  /** A tick that starts with level 0 empty admits at most one job there,
      serves, and ends with level 0 empty again, so it counts no response
      tick. */
  lemma TickEmptiesLevelZero(s: Mfq)
    requires WellFormed(s) && Contents(s.queueLevel[0]) == []
    ensures Contents(TickSimulation(s).0.queueLevel[0]) == []
    ensures TickSimulation(s).0.stats.respTicks == s.stats.respTicks
  {
    var s1, arrived, s2, departed := TickParts(s);
    assert |Contents(s1.queueLevel[0])| <= 1;
    ServeEmptiesLevelZero(s1);
  }

  /** Level 0 stays empty across any number of ticks, and the response
      counter does not move. */
  lemma {:induction false} RunKeepsLevelZeroEmpty(s: Mfq, n: nat)
    requires WellFormed(s) && Contents(s.queueLevel[0]) == []
    ensures Contents(Run(s, n).0.queueLevel[0]) == []
    ensures Run(s, n).0.stats.respTicks == s.stats.respTicks
    decreases n
  {
    if n > 0 {
      var m: nat := n - 1;
      TickEmptiesLevelZero(s);
      RunStep(s, n, m);
      RunKeepsLevelZeroEmpty(TickSimulation(s).0, m);
    }
  }

  /** From any input, every tick ends with level 0 empty and the response
      counter (`avgRespTime` before its division) still 0. A tick's service
      therefore starts with at most the one job just admitted at level 0, so
      the two-job state of `PreemptAfterRefill` is never reached. */
  lemma NoResponseTicks(descs: seq<Descriptor>, n: nat)
    ensures Contents(Run(Load(descs), n).0.queueLevel[0]) == []
    ensures Run(Load(descs), n).0.stats.respTicks == 0
  {
    RunKeepsLevelZeroEmpty(Load(descs), n);
  }
}
