/**
 The scheduler as it runs: the job table and its counters are updated in place by every call.
 Each method is proved to be the operation of `Sched` it implements.
 */
module Scheduler {
  import opened Common
  import opened Sched

  class Jobs {
    const jobs: array<Job>
    var jobCount: int
    var preemptArmed: bool
    var quantumExpired: bool
    var nextRun: nat
    var runningSlot: int

    ghost function State(): Table
      reads this, jobs
    {
      Table(jobs[..], jobCount, preemptArmed, quantumExpired, nextRun, runningSlot)
    }

    constructor (n: nat)
      requires n > 0
      ensures fresh(jobs) && jobs.Length == n && Inv(State())
    {
      jobs := new Job[n](_ => Job(0, false, 0));
      jobCount, preemptArmed, quantumExpired := 0, false, false;
      nextRun, runningSlot := 0, -1;
      new;
      CountZero(jobs[..]);
    }

    /** `sched_launch` */
    method LaunchJob(id: int, now: Tick) returns (r: int)
      modifies this, jobs
      ensures (State(), r) == Launch(old(State()), id, now)
    {
      if id <= 0 { return -1; }
      for i := 0 to jobs.Length
        invariant forall j :: 0 <= j < i ==> !(jobs[j].active && jobs[j].program == id)
      {
        if jobs[i].active && jobs[i].program == id { return 0; }
      }
      for i := 0 to jobs.Length
        invariant State() == old(State())
        invariant forall j :: 0 <= j < i ==> jobs[j].active
      {
        if !jobs[i].active {
          jobs[i] := Job(id, true, now);
          jobCount := jobCount + 1;
          preemptArmed := true;
          return 0;
        }
      }
      r := -1;
    }

    /** The loop `sched_kill` and `sched_detach` share. */
    method RemoveJob(id: int) returns (r: int)
      modifies this, jobs
      ensures (State(), r) == Remove(old(State()), id)
    {
      if id <= 0 { return -1; }
      var found := false;
      ghost var was := jobs[..];
      for i := 0 to jobs.Length
        invariant forall j :: 0 <= j < jobs.Length ==> jobs[j] == if j < i then TakeOut(was, id)[j] else was[j]
        invariant jobCount == old(jobCount) - (Count(was) - Count(jobs[..]))
        invariant found == (FindJob(was, id) < i)
        invariant preemptArmed == old(preemptArmed) && quantumExpired == old(quantumExpired)
        invariant nextRun == old(nextRun) && runningSlot == old(runningSlot)
      {
        if jobs[i].active && jobs[i].program == id {
          CountSet(jobs[..], i, Job(0, false, jobs[i].sliceStart));
          jobs[i] := Job(0, false, jobs[i].sliceStart);
          jobCount := jobCount - 1;
          found := true;
        }
      }
      assert jobs[..] == TakeOut(was, id);
      if !found {
        assert TakeOut(was, id) == was;
        return -1;
      }
      if jobCount <= 0 {
        jobCount := 0;
        preemptArmed := false;
        quantumExpired := false;
      }
      r := 0;
    }

    /** `sched_kill_all` */
    method RemoveAll()
      modifies this, jobs
      ensures State() == KillAll(old(State()))
    {
      ghost var was := jobs[..];
      for i := 0 to jobs.Length
        invariant forall j :: 0 <= j < jobs.Length ==> jobs[j] == if j < i then AllIdle(was)[j] else was[j]
        invariant nextRun == old(nextRun) && runningSlot == old(runningSlot)
      {
        if jobs[i].active { jobs[i] := Job(0, false, jobs[i].sliceStart); }
      }
      jobCount := 0;
      preemptArmed := false;
      quantumExpired := false;
    }

    /** `sched_should_preempt` */
    method TakePreempt() returns (r: bool)
      modifies this`quantumExpired
      ensures (State(), r) == ShouldPreempt(old(State()))
    {
      if !preemptArmed || jobCount == 0 { return false; }
      if quantumExpired {
        quantumExpired := false;
        return true;
      }
      r := false;
    }

    /** `sched_on_timer` */
    method Tick(now: Tick)
      modifies this`quantumExpired
      ensures State() == OnTimer(old(State()), now)
    {
      if !preemptArmed || jobCount == 0 { return; }
      var slot := runningSlot;
      if slot < 0 || slot >= jobs.Length || !jobs[slot].active { return; }
      if (now + TWO32 - jobs[slot].sliceStart) % TWO32 >= QUANTUM { quantumExpired := true; }
    }

    /** `sched_service`, with the timer ticks and questions that come while the program it
        picks is running; what the program itself does is not part of the table. */
    method RunNext(ps: Programs, now: Tick, slice: seq<Tock>) returns (ran: int)
      requires jobs.Length > 0
      modifies this, jobs
      ensures ran == Service(old(State()), ps, now).1 && State() == ServeSlice(old(State()), ps, now, slice)
    {
      ran := Pick(ps, now);
      if ran < 0 { return; }
      runningSlot := ran;
      ghost var t := State();
      for k := 0 to |slice|
        invariant During(State(), slice[k..]) == During(t, slice)
      {
        assert slice[k..][0] == slice[k] && slice[k..][1..] == slice[k + 1..];
        match slice[k] {
          case Beat(tick) => Tick(tick);
          case Ask =>
            var taken := TakePreempt();
        }
      }
      runningSlot := -1;
    }

    /** The scan of `sched_service`. */
    method Pick(ps: Programs, now: Tick) returns (ran: int)
      requires jobs.Length > 0
      modifies this, jobs
      ensures (State(), ran) == Service(old(State()), ps, now)
    {
      for k := 0 to jobs.Length
        invariant Scan(State(), ps, now, k) == Service(old(State()), ps, now)
      {
        var i := (nextRun + k) % jobs.Length;
        assert i == SlotAt(State(), k);
        if jobs[i].active {
          var status := StatusOf(ps, jobs[i].program);
          if !status.Runnable? {
            jobs[i] := jobs[i].(active := false);
            jobCount := jobCount - 1;
          } else {
            jobs[i] := jobs[i].(sliceStart := now);
            quantumExpired := false;
            nextRun := (i + 1) % jobs.Length;
            return i;
          }
        }
      }
      if jobCount == 0 { preemptArmed := false; }
      ran := -1;
    }
  }
}
