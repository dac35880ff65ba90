/**
 What each call of the scheduler leaves behind, told by who waits in which slot.
 */
module SchedLaws {
  import opened Common
  import opened Sched

  /** Some slot holds an active job of the program. */
  ghost predicate Queued(t: Table, id: int) { exists p: nat :: Waits(t, p, id) }

  lemma {:induction false} FindJobIff(t: Table, id: int)
    ensures FindJob(t.jobs, id) < |t.jobs| <==> Queued(t, id)
  {
    if FindJob(t.jobs, id) < |t.jobs| { assert Waits(t, FindJob(t.jobs, id), id); }
  }

  /** A launch is answered 0 exactly when the id is positive and the program is queued already
      or a slot is idle; then it is queued, with its clock at now when it is new, and every
      other slot is as it was. */
  lemma {:induction false} LaunchLaw(t: Table, id: int, now: Tick)
    requires Inv(t)
    ensures var (u, r) := Launch(t, id, now);
            && (r == 0 || r == -1) && |u.jobs| == |t.jobs| && u.nextRun == t.nextRun && u.running == t.running && u.expired == t.expired
            && (r == 0 <==> id > 0 && (Queued(t, id) || t.count < |t.jobs|))
            && (r == -1 ==> u == t) && (r == 0 ==> Queued(u, id))
            && (r == 0 && Queued(t, id) ==> u == t)
            && (r == 0 && !Queued(t, id) ==>
                  (u.count == t.count + 1
                   && exists p :: 0 <= p < |t.jobs| && !t.jobs[p].active && u.jobs == t.jobs[p := Job(id, true, now)]))
  {
    hide Count;
    FindJobIff(t, id);
    FullIff(t.jobs);
    var (u, r) := Launch(t, id, now);
    if r == 0 && !Queued(t, id) {
      var p := FindIdle(t.jobs);
      assert u.jobs == t.jobs[p := Job(id, true, now)];
      assert Waits(u, p, id);
    }
  }

  /** All slots are active exactly when the count says so. */
  lemma {:induction false} FullIff(jobs: seq<Job>)
    ensures Count(jobs) == |jobs| <==> FindIdle(jobs) == |jobs|
  {
    if jobs != [] { FullIff(jobs[1..]); }
  }

  /** Killing and detaching are answered 0 exactly for a program that is queued; afterwards it
      is not, and all other jobs are as they were. */
  lemma {:induction false} RemoveLaw(t: Table, id: int)
    requires Inv(t)
    ensures var (u, r) := Remove(t, id);
            && (r == 0 || r == -1) && |u.jobs| == |t.jobs| && u.nextRun == t.nextRun && u.running == t.running
            && (r == 0 <==> Queued(t, id)) && (r == -1 ==> u == t)
            && (r == 0 ==> !Queued(u, id) && u.count == t.count - 1 && (u.count == 0 ==> !u.expired))
            && (forall p: nat, other :: other != id ==> (Waits(u, p, other) <==> Waits(t, p, other)))
            && (forall p :: 0 <= p < |t.jobs| && t.jobs[p].program != id ==> u.jobs[p] == t.jobs[p])
            && (forall p: nat :: Waits(t, p, id) ==> u.jobs[p] == Job(0, false, t.jobs[p].sliceStart))
  {
    hide Count;
    FindJobIff(t, id);
    RemoveInv(t, id);
    var (u, r) := Remove(t, id);
    if Queued(t, id) {
      var p: nat :| Waits(t, p, id);
      assert id > 0;
    }
  }

  /** After all are killed nobody is queued, nothing counts and nothing is armed; the slots of
      active jobs hold program 0, and idle ones are as they were. */
  lemma {:induction false} KillAllLaw(t: Table)
    requires Inv(t)
    ensures var u := KillAll(t);
            && (forall p :: 0 <= p < |u.jobs| ==> !u.jobs[p].active) && |u.jobs| == |t.jobs|
            && (forall p :: 0 <= p < |t.jobs| && !t.jobs[p].active ==> u.jobs[p] == t.jobs[p])
            && (forall p :: 0 <= p < |t.jobs| && t.jobs[p].active ==> u.jobs[p].program == 0)
            && u.count == 0 && Count(u.jobs) == 0 && !u.armed && !u.expired && u.nextRun == t.nextRun
  {
    CountZero(AllIdle(t.jobs));
  }

  /** A service call either runs a queued job whose program can run, starting its clock and
      moving the cursor just behind it, or finds that no queued job can run, and then none is
      queued any longer. Jobs are only ever dropped because their programs cannot run. */
  lemma {:induction false} ServiceLaw(t: Table, ps: Programs, now: Tick)
    requires Inv(t)
    ensures var (u, i) := Service(t, ps, now);
            && |u.jobs| == |t.jobs| && -1 <= i < |t.jobs|
            && (i >= 0 ==> && t.jobs[i].active && StatusOf(ps, t.jobs[i].program).Runnable?
                           && u.jobs[i] == t.jobs[i].(sliceStart := now) && u.nextRun == (i + 1) % |t.jobs| && !u.expired)
            && (i < 0 ==> (forall p :: 0 <= p < |u.jobs| ==> !u.jobs[p].active) && !u.armed && u.count == 0 && u.nextRun == t.nextRun)
            && (forall p :: 0 <= p < |t.jobs| && p != i ==>
                  u.jobs[p] == t.jobs[p]
                  || (t.jobs[p].active && !StatusOf(ps, t.jobs[p].program).Runnable? && u.jobs[p] == t.jobs[p].(active := false)))
            && (i < 0 ==> forall p :: 0 <= p < |t.jobs| && t.jobs[p].active ==> !StatusOf(ps, t.jobs[p].program).Runnable?)
  {
    hide Scan, Count;
    assert Scanning(t, 0);
    ScanLaw(t, ps, now, 0);
    ServiceInv(t, ps, now);
    var (u, i) := Service(t, ps, now);
    if i < 0 { CountZero(u.jobs); }
  }

  lemma {:induction false} ScanLaw(t: Table, ps: Programs, now: Tick, k: nat)
    requires Scanning(t, k)
    ensures var (u, i) := Scan(t, ps, now, k);
            && |u.jobs| == |t.jobs| && -1 <= i < |t.jobs|
            && (i >= 0 ==> && t.jobs[i].active && StatusOf(ps, t.jobs[i].program).Runnable?
                           && u.jobs[i] == t.jobs[i].(sliceStart := now) && u.nextRun == (i + 1) % |t.jobs| && !u.expired)
            && (i < 0 ==> u.count == 0 && u.nextRun == t.nextRun && !u.armed)
            && (forall p :: 0 <= p < |t.jobs| && p != i ==>
                  u.jobs[p] == t.jobs[p]
                  || (t.jobs[p].active && !StatusOf(ps, t.jobs[p].program).Runnable? && u.jobs[p] == t.jobs[p].(active := false)))
    decreases |t.jobs| - k
  {
    hide Count, SlotAt, StatusOf;
    if k == |t.jobs| {
      ScanEnds(t);
    } else {
      var i := SlotAt(t, k);
      if !t.jobs[i].active {
        ScanOn(t, k);
        ScanLaw(t, ps, now, k + 1);
      } else if !StatusOf(ps, t.jobs[i].program).Runnable? {
        ScanDrops(t, k);
        ScanLaw(t.(jobs := t.jobs[i := t.jobs[i].(active := false)], count := t.count - 1), ps, now, k + 1);
      }
    }
  }

  lemma {:induction false} ScanOn(t: Table, k: nat)
    requires Scanning(t, k) && k < |t.jobs| && !t.jobs[SlotAt(t, k)].active
    ensures Scanning(t, k + 1)
  {
    hide Count, SlotAt;
  }

  /** A program cannot run when it is unknown or has ended. */
  lemma {:induction false} StatusLaw(ps: Programs, id: int)
    ensures StatusOf(ps, id).Runnable? <==> id in ps && ps[id] == Runnable
  {
  }

  /** The question whether to give way is answered yes once for each time the quantum ran
      out. */
  lemma {:induction false} AskedOnce(t: Table)
    requires Inv(t)
    ensures ShouldPreempt(t).1 <==> t.count > 0 && t.expired
    ensures !ShouldPreempt(ShouldPreempt(t).0).1
    ensures ShouldPreempt(t).0 == (if t.count > 0 then t.(expired := false) else t)
  {
  }

  /** A service call during which one tick comes: the job it picked, in whatever slot, has used
      its quantum up exactly when the tick comes 25 or more after the call, counted round the
      32-bit clock. */
  lemma {:induction false} TickInSlice(t: Table, ps: Programs, now: Tick, later: Tick)
    requires Inv(t) && Service(t, ps, now).1 >= 0
    ensures ServeSlice(t, ps, now, [Beat(later)]).expired
            <==> (if later >= now then later - now >= 25 else later + 0x1_0000_0000 - now >= 25)
  {
    hide Scan, Count;
    ServiceLaw(t, ps, now);
    ServiceInv(t, ps, now);
    var (u, i) := Service(t, ps, now);
    SomeActive(u.jobs, i);
    assert During(u.(running := i), [Beat(later)]) == OnTimer(u.(running := i), later);
  }

  lemma {:induction false} SomeActive(jobs: seq<Job>, i: nat)
    requires i < |jobs| && jobs[i].active
    ensures Count(jobs) > 0
  {
    if i > 0 { SomeActive(jobs[1..], i - 1); }
  }
}
