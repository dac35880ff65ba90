/**
 The background scheduler: a table of N job slots served round robin, and a quantum kept by
 the timer.
 */
module Sched {
  import opened Common

  const QUANTUM: nat := 25

  type Tick = x: nat | x < TWO32

  datatype Job = Job(program: int, active: bool, sliceStart: Tick)

  /** What the program table says of a program. */
  datatype Status = Missing | Runnable | Finished

  datatype Table = Table(jobs: seq<Job>, count: int, armed: bool, expired: bool, nextRun: nat, running: int)

  /** The program table at the time of a call. */
  type Programs = map<int, Status>

  function StatusOf(ps: Programs, id: int): Status { if id in ps then ps[id] else Missing }

  // ---- the operations ----

  function FindJob(jobs: seq<Job>, id: int): (i: nat)
    ensures i <= |jobs|
    ensures i < |jobs| ==> jobs[i].active && jobs[i].program == id
    ensures forall j :: 0 <= j < i ==> !(jobs[j].active && jobs[j].program == id)
  {
    if jobs == [] || (jobs[0].active && jobs[0].program == id) then 0 else 1 + FindJob(jobs[1..], id)
  }

  function FindIdle(jobs: seq<Job>): (i: nat)
    ensures i <= |jobs|
    ensures i < |jobs| ==> !jobs[i].active
    ensures forall j :: 0 <= j < i ==> jobs[j].active
  {
    if jobs == [] || !jobs[0].active then 0 else 1 + FindIdle(jobs[1..])
  }

  /** `sched_launch` at tick `now`. */
  function Launch(t: Table, id: int, now: Tick): (r: (Table, int)) {
    if id <= 0 then (t, -1)
    else if FindJob(t.jobs, id) < |t.jobs| then (t, 0)
    else
      var i := FindIdle(t.jobs);
      if i == |t.jobs| then (t, -1)
      else (t.(jobs := t.jobs[i := Job(id, true, now)], count := t.count + 1, armed := true), 0)
  }

  /** The table with every active job of a program taken out. */
  function TakeOut(jobs: seq<Job>, id: int): (r: seq<Job>)
    ensures |r| == |jobs|
  {
    seq(|jobs|, i requires 0 <= i < |jobs| =>
      if jobs[i].active && jobs[i].program == id then Job(0, false, jobs[i].sliceStart) else jobs[i])
  }

  function Count(jobs: seq<Job>): (n: nat)
    ensures n <= |jobs|
  {
    if jobs == [] then 0 else (if jobs[0].active then 1 else 0) + Count(jobs[1..])
  }

  /** What `sched_kill` and `sched_detach` do to the job table. */
  function Remove(t: Table, id: int): (r: (Table, int)) {
    if id <= 0 || FindJob(t.jobs, id) == |t.jobs| then (t, -1)
    else
      var jobs := TakeOut(t.jobs, id);
      var left := t.count - (Count(t.jobs) - Count(jobs));
      (if left <= 0 then Table(jobs, 0, false, false, t.nextRun, t.running)
       else t.(jobs := jobs, count := left), 0)
  }

  function AllIdle(jobs: seq<Job>): (r: seq<Job>)
    ensures |r| == |jobs|
  {
    seq(|jobs|, i requires 0 <= i < |jobs| => if jobs[i].active then Job(0, false, jobs[i].sliceStart) else jobs[i])
  }

  /** `sched_kill_all` */
  function KillAll(t: Table): Table { Table(AllIdle(t.jobs), 0, false, false, t.nextRun, t.running) }

  /** `sched_on_timer` at tick `now`. */
  function OnTimer(t: Table, now: Tick): Table {
    if !t.armed || t.count == 0 || t.running < 0 || t.running >= |t.jobs| || !t.jobs[t.running].active then t
    else if (now + TWO32 - t.jobs[t.running].sliceStart) % TWO32 >= QUANTUM then t.(expired := true)
    else t
  }

  /** `sched_should_preempt` */
  function ShouldPreempt(t: Table): (r: (Table, bool)) {
    if !t.armed || t.count == 0 || !t.expired then (t, false) else (t.(expired := false), true)
  }

  /** The slot looked at k places behind the cursor. */
  function SlotAt(t: Table, k: nat): (i: nat)
    requires |t.jobs| > 0
    ensures i < |t.jobs|
  {
    (t.nextRun + k) % |t.jobs|
  }

  /** The scan of `sched_service` from place k on: the slot to run, or -1; jobs whose program
      is gone or has finished leave the table. */
  function Scan(t: Table, ps: Programs, now: Tick, k: nat): (r: (Table, int))
    requires |t.jobs| > 0 && k <= |t.jobs|
    decreases |t.jobs| - k
  {
    if k == |t.jobs| then (if t.count == 0 then t.(armed := false) else t, -1)
    else
      var i := SlotAt(t, k);
      if !t.jobs[i].active then Scan(t, ps, now, k + 1)
      else if StatusOf(ps, t.jobs[i].program).Runnable? then
        (t.(jobs := t.jobs[i := t.jobs[i].(sliceStart := now)], expired := false, nextRun := (i + 1) % |t.jobs|), i)
      else
        Scan(t.(jobs := t.jobs[i := t.jobs[i].(active := false)], count := t.count - 1), ps, now, k + 1)
  }

  /** `sched_service`: the table afterwards and the slot that ran. */
  function Service(t: Table, ps: Programs, now: Tick): (r: (Table, int))
    requires |t.jobs| > 0
  {
    Scan(t, ps, now, 0)
  }

  /** What happens while a job has the processor: timer ticks, and the question whether to
      take it away. */
  datatype Tock = Beat(now: Tick) | Ask

  function DuringOne(t: Table, e: Tock): Table {
    match e
    case Beat(now) => OnTimer(t, now)
    case Ask => ShouldPreempt(t).0
  }

  function During(t: Table, slice: seq<Tock>): Table
    decreases |slice|
  {
    if slice == [] then t else During(DuringOne(t, slice[0]), slice[1..])
  }

  /** A service call with what happens while the job it picks is running. */
  function ServeSlice(t: Table, ps: Programs, now: Tick, slice: seq<Tock>): (r: Table)
    requires |t.jobs| > 0
  {
    var (u, i) := Service(t, ps, now);
    if i < 0 then u else During(u.(running := i), slice).(running := -1)
  }

  // ---- the invariant ----

  /** The count is the number of active jobs, no program has two, and preemption is armed
      exactly while there are jobs. */
  ghost predicate Inv(t: Table) {
    && |t.jobs| > 0 && t.nextRun < |t.jobs| && t.running == -1
    && t.count == Count(t.jobs) && t.armed == (t.count > 0)
    && (forall i :: 0 <= i < |t.jobs| && t.jobs[i].active ==> t.jobs[i].program > 0)
    && (forall i, j :: 0 <= i < j < |t.jobs| && t.jobs[i].active && t.jobs[j].active ==> t.jobs[i].program != t.jobs[j].program)
  }

  lemma {:induction false} CountSet(jobs: seq<Job>, i: nat, j: Job)
    requires i < |jobs|
    ensures Count(jobs[i := j]) == Count(jobs) + (if j.active then 1 else 0) - (if jobs[i].active then 1 else 0)
  {
    if i == 0 {
      assert jobs[0 := j][1..] == jobs[1..];
    } else {
      assert jobs[i := j][1..] == jobs[1..][i - 1 := j];
      CountSet(jobs[1..], i - 1, j);
    }
  }

  lemma {:induction false} CountZero(jobs: seq<Job>)
    ensures Count(jobs) == 0 <==> forall i :: 0 <= i < |jobs| ==> !jobs[i].active
  {
    if jobs != [] {
      CountZero(jobs[1..]);
      if forall i :: 0 <= i < |jobs| ==> !jobs[i].active {
        forall i | 0 <= i < |jobs| - 1 ensures !jobs[1..][i].active { assert !jobs[i + 1].active; }
      } else if !jobs[0].active {
        var i :| 0 <= i < |jobs| && jobs[i].active;
        assert jobs[1..][i - 1].active;
      }
    }
  }

  lemma {:induction false} LaunchInv(t: Table, id: int, now: Tick)
    requires Inv(t)
    ensures Inv(Launch(t, id, now).0)
  {
    var i := FindIdle(t.jobs);
    if i < |t.jobs| { CountSet(t.jobs, i, Job(id, true, now)); }
  }

  /** With distinct ids one job leaves. */
  lemma {:induction false} RemoveInv(t: Table, id: int)
    requires Inv(t)
    ensures Inv(Remove(t, id).0)
    ensures Remove(t, id).1 == 0 ==> Remove(t, id).0.count == t.count - 1
  {
    var i := FindJob(t.jobs, id);
    if id > 0 && i < |t.jobs| {
      var j := Job(0, false, t.jobs[i].sliceStart);
      assert TakeOut(t.jobs, id) == t.jobs[i := j];
      CountSet(t.jobs, i, j);
    }
  }

  lemma {:induction false} KillAllInv(t: Table)
    requires Inv(t)
    ensures Inv(KillAll(t))
  {
    CountZero(AllIdle(t.jobs));
  }

  /** What holds in the middle of a scan. */
  ghost predicate Scanning(t: Table, k: nat) {
    && |t.jobs| > 0 && k <= |t.jobs| && t.nextRun < |t.jobs| && t.running == -1
    && t.count == Count(t.jobs) && (t.count > 0 ==> t.armed)
    && (forall i :: 0 <= i < |t.jobs| && t.jobs[i].active ==> t.jobs[i].program > 0)
    && (forall i, j :: 0 <= i < j < |t.jobs| && t.jobs[i].active && t.jobs[j].active ==> t.jobs[i].program != t.jobs[j].program)
    && (forall m :: 0 <= m < k ==> !t.jobs[SlotAt(t, m)].active)
  }

  /** Every slot is looked at within one round. */
  lemma {:induction false} SlotSeen(t: Table, i: nat)
    requires i < |t.jobs| && t.nextRun < |t.jobs|
    ensures var m := (i + |t.jobs| - t.nextRun) % |t.jobs|; m < |t.jobs| && SlotAt(t, m) == i
  {
    var n := |t.jobs|;
    if i >= t.nextRun {
      assert (i + n - t.nextRun) % n == i - t.nextRun by { ModOnce(i - t.nextRun, n); }
      assert (t.nextRun + (i - t.nextRun)) % n == i by { ModSelf(i, n); }
    } else {
      assert (i + n - t.nextRun) % n == i + n - t.nextRun by { ModSelf(i + n - t.nextRun, n); }
      assert (t.nextRun + (i + n - t.nextRun)) % n == i by { ModOnce(i, n); }
    }
  }

  lemma {:induction false} ModSelf(x: nat, n: nat)
    requires x < n
    ensures x % n == x
  {
  }

  lemma {:induction false} ModOnce(x: nat, n: nat)
    requires x < n
    ensures (x + n) % n == x
  {
    assert (x + n) / n == 1 by { if (x + n) / n != 1 { DivOnce(x, n); } }
  }

  lemma {:induction false} DivOnce(x: nat, n: nat)
    requires x < n
    ensures (x + n) / n == 1
  {
    var q, r := (x + n) / n, (x + n) % n;
    assert x + n == n * q + r;
    if q >= 2 { MulMono(n, 2, n, q); }
  }

  /** A scan that has gone all the way round leaves no job. */
  lemma {:induction false} ScanEnds(t: Table)
    requires Scanning(t, |t.jobs|)
    ensures t.count == 0 && Inv(t.(armed := false))
  {
    hide Count, SlotAt;
    forall i | 0 <= i < |t.jobs| ensures !t.jobs[i].active { SlotSeen(t, i); }
    CountZero(t.jobs);
  }

  lemma {:induction false} ScanRuns(t: Table, k: nat, now: Tick)
    requires Scanning(t, k) && k < |t.jobs| && t.jobs[SlotAt(t, k)].active
    ensures var i := SlotAt(t, k);
            Inv(t.(jobs := t.jobs[i := t.jobs[i].(sliceStart := now)], expired := false, nextRun := (i + 1) % |t.jobs|))
  {
    hide Count;
    var i := SlotAt(t, k);
    CountSet(t.jobs, i, t.jobs[i].(sliceStart := now));
    CountZero(t.jobs);
  }

  lemma {:induction false} ScanDrops(t: Table, k: nat)
    requires Scanning(t, k) && k < |t.jobs| && t.jobs[SlotAt(t, k)].active
    ensures var i := SlotAt(t, k);
            Scanning(t.(jobs := t.jobs[i := t.jobs[i].(active := false)], count := t.count - 1), k + 1)
  {
    hide Count;
    var i := SlotAt(t, k);
    var u := t.(jobs := t.jobs[i := t.jobs[i].(active := false)], count := t.count - 1);
    CountSet(t.jobs, i, t.jobs[i].(active := false));
    forall m | 0 <= m < k + 1 ensures !u.jobs[SlotAt(u, m)].active {
      assert SlotAt(u, m) == SlotAt(t, m);
    }
  }

  lemma {:induction false} ScanInv(t: Table, ps: Programs, now: Tick, k: nat)
    requires Scanning(t, k)
    ensures Inv(Scan(t, ps, now, k).0) && |Scan(t, ps, now, k).0.jobs| == |t.jobs|
    decreases |t.jobs| - k
  {
    hide Inv, Count, SlotAt;
    if k == |t.jobs| {
      ScanEnds(t);
    } else {
      var i := SlotAt(t, k);
      if !t.jobs[i].active {
        ScanInv(t, ps, now, k + 1);
      } else if StatusOf(ps, t.jobs[i].program).Runnable? {
        ScanRuns(t, k, now);
      } else {
        ScanDrops(t, k);
        ScanInv(t.(jobs := t.jobs[i := t.jobs[i].(active := false)], count := t.count - 1), ps, now, k + 1);
      }
    }
  }

  lemma {:induction false} ServiceInv(t: Table, ps: Programs, now: Tick)
    requires Inv(t)
    ensures Inv(Service(t, ps, now).0) && |Service(t, ps, now).0.jobs| == |t.jobs|
  {
    ScanInv(t, ps, now, 0);
  }

  // ---- bounded waiting ----

  /** How far slot p lies behind the cursor. */
  function Distance(t: Table, p: nat): (d: nat)
    requires p < |t.jobs| && t.nextRun < |t.jobs|
    ensures d < |t.jobs|
  {
    (p + |t.jobs| - t.nextRun) % |t.jobs|
  }

  /** Slot p holds an active job of a program. */
  predicate Waits(t: Table, p: nat, id: int) { p < |t.jobs| && t.jobs[p].active && t.jobs[p].program == id }

  lemma {:induction false} DistanceIs(t: Table, p: nat, m: nat)
    requires t.nextRun < |t.jobs| && m < |t.jobs| && p == SlotAt(t, m)
    ensures Distance(t, p) == m
  {
    var n := |t.jobs|;
    if t.nextRun + m < n {
      ModSelf(t.nextRun + m, n);
      ModOnce(m, n);
    } else {
      ModOnce(t.nextRun + m - n, n);
      ModSelf(m, n);
    }
  }

  /** Moving the cursor behind the slot at k brings every later slot nearer. */
  lemma {:induction false} CursorMoves(t: Table, u: Table, k: nat, m: nat)
    requires t.nextRun < |t.jobs| == |u.jobs| && k < m < |t.jobs| && u.nextRun == (SlotAt(t, k) + 1) % |t.jobs|
    ensures u.nextRun < |u.jobs| && SlotAt(u, m - k - 1) == SlotAt(t, m)
  {
    hide SlotAt;
    var n, a := |t.jobs|, t.nextRun;
    SlotIs(t, k, n, a);
    SlotIs(t, m, n, a);
    CursorArithmetic(n, a, k, m);
    SlotIs(u, m - k - 1, n, ((a + k) % n + 1) % n);
  }

  lemma {:induction false} SlotIs(t: Table, k: nat, n: nat, a: nat)
    requires n == |t.jobs| > 0 && a == t.nextRun
    ensures SlotAt(t, k) == (a + k) % n
  {
  }

  lemma {:induction false} CursorArithmetic(n: nat, a: nat, k: nat, m: nat)
    requires a < n && k < m < n
    ensures ((a + k) % n + 1) % n < n && (((a + k) % n + 1) % n + (m - k - 1)) % n == (a + m) % n
  {
    Wrapped(a + k, n);
    var i := (a + k) % n;
    Wrapped(i + 1, n);
    var b := (i + 1) % n;
    Wrapped(b + (m - k - 1), n);
    Wrapped(a + m, n);
  }

  lemma {:induction false} Wrapped(x: nat, n: nat)
    requires x < 2 * n
    ensures x % n == if x < n then x else x - n
  {
    if x < n { ModSelf(x, n); } else { ModOnce(x - n, n); }
  }

  /** A scan stops at a waiting runnable job or before it. */
  lemma {:induction false} ScanTurns(t: Table, ps: Programs, now: Tick, k: nat, m: nat, id: int)
    requires t.nextRun < |t.jobs| && k <= m < |t.jobs| && Waits(t, SlotAt(t, m), id) && StatusOf(ps, id).Runnable?
    ensures var (u, i) := Scan(t, ps, now, k);
            var p := SlotAt(t, m);
            && |u.jobs| == |t.jobs| && u.nextRun < |u.jobs|
            && (i == p || (i >= 0 && Waits(u, p, id) && Distance(u, p) < m))
    decreases |t.jobs| - k
  {
    var p, i := SlotAt(t, m), SlotAt(t, k);
    if t.jobs[i].active && StatusOf(ps, t.jobs[i].program).Runnable? {
      var u := Scan(t, ps, now, k).0;
      if i != p {
        CursorMoves(t, u, k, m);
        DistanceIs(u, p, m - k - 1);
      }
    } else {
      assert i != p;
      if t.jobs[i].active {
        var u := t.(jobs := t.jobs[i := t.jobs[i].(active := false)], count := t.count - 1);
        assert SlotAt(u, m) == p;
        ScanTurns(u, ps, now, k + 1, m, id);
      } else {
        ScanTurns(t, ps, now, k + 1, m, id);
      }
    }
  }

  /** One service call runs a waiting runnable job or brings it strictly nearer. */
  lemma {:induction false} ServiceTurns(t: Table, ps: Programs, now: Tick, p: nat, id: int)
    requires Inv(t) && Waits(t, p, id) && StatusOf(ps, id).Runnable?
    ensures var (u, i) := Service(t, ps, now);
            && |u.jobs| == |t.jobs| && u.nextRun < |u.jobs|
            && (i == p || (Waits(u, p, id) && Distance(u, p) < Distance(t, p)))
  {
    SlotSeen(t, p);
    ScanTurns(t, ps, now, 0, Distance(t, p), id);
  }

  datatype Event =
    | DoService(ps: Programs, now: Tick, slice: seq<Tock>)
    | DoLaunch(id: int, now: Tick)
    | DoKill(id: int)
    | DoDetach(id: int)
    | DoTimer(now: Tick)
    | AskPreempt

  function Step(t: Table, e: Event): (r: Table)
    requires |t.jobs| > 0
  {
    match e
    case DoService(ps, now, slice) => ServeSlice(t, ps, now, slice)
    case DoLaunch(id, now) => Launch(t, id, now).0
    case DoKill(id) => Remove(t, id).0
    case DoDetach(id) => Remove(t, id).0
    case DoTimer(now) => OnTimer(t, now)
    case AskPreempt => ShouldPreempt(t).0
  }

  lemma {:induction false} StepInv(t: Table, e: Event)
    requires Inv(t)
    ensures Inv(Step(t, e)) && |Step(t, e).jobs| == |t.jobs|
  {
    hide Inv, Scan, Remove, Launch, ServeSlice;
    InvShape(t);
    match e
    case DoService(ps, now, slice) => SliceInv(t, ps, now, slice);
    case DoLaunch(id, now) => LaunchInv(t, id, now); LaunchSize(t, id, now);
    case DoKill(id) => RemoveInv(t, id); RemoveSize(t, id);
    case DoDetach(id) => RemoveInv(t, id); RemoveSize(t, id);
    case DoTimer(now) => TimerInv(t, now);
    case AskPreempt => AskInv(t);
  }

  /** A slice changes nothing but whether the quantum has run out. */
  lemma {:induction false} DuringKeeps(t: Table, slice: seq<Tock>)
    ensures During(t, slice) == t.(expired := During(t, slice).expired)
    decreases |slice|
  {
    if slice != [] { DuringKeeps(DuringOne(t, slice[0]), slice[1..]); }
  }

  lemma {:induction false} SliceInv(t: Table, ps: Programs, now: Tick, slice: seq<Tock>)
    requires Inv(t)
    ensures Inv(ServeSlice(t, ps, now, slice)) && |ServeSlice(t, ps, now, slice).jobs| == |t.jobs|
    ensures ServeSlice(t, ps, now, slice) == Service(t, ps, now).0.(expired := ServeSlice(t, ps, now, slice).expired)
  {
    hide Service, During, Count;
    ServiceInv(t, ps, now);
    var (u, i) := Service(t, ps, now);
    if i >= 0 { DuringKeeps(u.(running := i), slice); }
  }

  lemma {:induction false} InvShape(t: Table)
    requires Inv(t)
    ensures |t.jobs| > 0 && t.nextRun < |t.jobs|
  {
  }

  lemma {:induction false} LaunchSize(t: Table, id: int, now: Tick)
    ensures |Launch(t, id, now).0.jobs| == |t.jobs|
  {
  }

  lemma {:induction false} RemoveSize(t: Table, id: int)
    ensures |Remove(t, id).0.jobs| == |t.jobs|
  {
  }

  lemma {:induction false} TimerInv(t: Table, now: Tick)
    requires Inv(t)
    ensures Inv(OnTimer(t, now)) && OnTimer(t, now).jobs == t.jobs
  {
  }

  lemma {:induction false} AskInv(t: Table)
    requires Inv(t)
    ensures Inv(ShouldPreempt(t).0) && ShouldPreempt(t).0.jobs == t.jobs
  {
  }

  /** An event that is not about the job: service calls find its program runnable, and no one
      kills or detaches it. */
  predicate Spares(e: Event, id: int) {
    match e
    case DoService(ps, _, _) => StatusOf(ps, id).Runnable?
    case DoKill(k) => k != id
    case DoDetach(k) => k != id
    case _ => true
  }

  /** The job in slot p is run by some service call of a run. */
  predicate Served(t: Table, es: seq<Event>, p: nat)
    requires |t.jobs| > 0
    decreases |es|
  {
    es != []
    && ((es[0].DoService? && Service(t, es[0].ps, es[0].now).1 == p)
        || (|Step(t, es[0]).jobs| > 0 && Served(Step(t, es[0]), es[1..], p)))
  }

  function Services(es: seq<Event>): nat {
    if es == [] then 0 else (if es[0].DoService? then 1 else 0) + Services(es[1..])
  }

  /** Events other than service leave a waiting job and the cursor where they are. */
  lemma {:induction false} OthersLeave(t: Table, e: Event, p: nat, id: int)
    requires Inv(t) && Waits(t, p, id) && !e.DoService? && Spares(e, id)
    ensures var u := Step(t, e);
            Waits(u, p, id) && |u.jobs| == |t.jobs| && u.nextRun == t.nextRun
  {
    hide Inv;
    InvShape(t);
  }

  /** Bounded waiting: a job that stays active and runnable is run within as many service
      calls as lie between it and the cursor, whatever else is launched, killed or detached
      in between. */
  lemma {:induction false} WaitsAtMost(t: Table, es: seq<Event>, p: nat, id: int)
    requires Inv(t) && Waits(t, p, id) && forall k :: 0 <= k < |es| ==> Spares(es[k], id)
    requires Services(es) > Distance(t, p)
    ensures Served(t, es, p)
    decreases |es|
  {
    hide Inv, Step, Service, Spares, Distance;
    InvShape(t);
    var e := es[0];
    assert Spares(e, id);
    StepInv(t, e);
    InvShape(Step(t, e));
    if e.DoService? {
      StepService(t, e);
      SparedRunnable(e, id);
      ServiceTurns(t, e.ps, e.now, p, id);
      if Service(t, e.ps, e.now).1 != p {
        SameDistance(Service(t, e.ps, e.now).0, Step(t, e), p);
        WaitsAtMost(Step(t, e), es[1..], p, id);
      }
    } else {
      OthersLeave(t, e, p, id);
      SameDistance(t, Step(t, e), p);
      WaitsAtMost(Step(t, e), es[1..], p, id);
    }
  }

  lemma {:induction false} StepService(t: Table, e: Event)
    requires Inv(t) && e.DoService?
    ensures Step(t, e) == Service(t, e.ps, e.now).0.(expired := Step(t, e).expired)
  {
    hide Inv, Service, ServeSlice;
    InvShape(t);
    SliceInv(t, e.ps, e.now, e.slice);
  }

  lemma {:induction false} SparedRunnable(e: Event, id: int)
    requires e.DoService? && Spares(e, id)
    ensures StatusOf(e.ps, id).Runnable?
  {
  }

  lemma {:induction false} SameDistance(t: Table, u: Table, p: nat)
    requires p < |t.jobs| == |u.jobs| && t.nextRun == u.nextRun < |t.jobs|
    ensures Distance(u, p) == Distance(t, p)
  {
  }

  /** Within N service calls, N the number of slots. */
  lemma {:induction false} RunWithinN(t: Table, es: seq<Event>, p: nat, id: int)
    requires Inv(t) && Waits(t, p, id) && forall k :: 0 <= k < |es| ==> Spares(es[k], id)
    requires Services(es) >= |t.jobs|
    ensures Served(t, es, p)
  {
    WaitsAtMost(t, es, p, id);
  }

  // ---- the quantum ----

  /** Though ticks wrap at 2^32, a job whose slice began at `start` is due for preemption at
      `now` exactly when 25 ticks have gone by. */
  lemma {:induction false} QuantumExact(t: Table, start: nat, now: nat)
    requires 0 <= t.running < |t.jobs| && t.jobs[t.running].active && t.armed && t.count > 0 && !t.expired
    requires t.jobs[t.running].sliceStart == start % TWO32 && start <= now < start + TWO32
    ensures ShouldPreempt(OnTimer(t, now % TWO32)).1 <==> now - start >= QUANTUM
  {
    TicksSince(start, now);
  }

  /** How a slice begins: the job that is picked is active, its clock starts now, preemption
      is armed and the quantum is fresh. */
  lemma {:induction false} ScanStarts(t: Table, ps: Programs, now: Tick, k: nat)
    requires Scanning(t, k)
    ensures var (u, i) := Scan(t, ps, now, k);
            i >= 0 ==> i < |u.jobs| && u.jobs[i].active && u.jobs[i].sliceStart == now && u.armed && u.count > 0 && !u.expired
    decreases |t.jobs| - k
  {
    hide Count, SlotAt;
    if k < |t.jobs| {
      var i := SlotAt(t, k);
      if !t.jobs[i].active {
        ScanStarts(t, ps, now, k + 1);
      } else if StatusOf(ps, t.jobs[i].program).Runnable? {
        CountZero(t.jobs);
      } else {
        ScanDrops(t, k);
        ScanStarts(t.(jobs := t.jobs[i := t.jobs[i].(active := false)], count := t.count - 1), ps, now, k + 1);
      }
    }
  }

  /** The ticks at the given times. */
  function Beats(times: seq<nat>): (slice: seq<Tock>)
    ensures |slice| == |times|
  {
    seq(|times|, k requires 0 <= k < |times| => Beat(times[k] % TWO32))
  }

  lemma {:induction false} BeatsExpire(t: Table, start: nat, times: seq<nat>)
    requires 0 <= t.running < |t.jobs| && t.jobs[t.running].active && t.armed && t.count > 0
    requires t.jobs[t.running].sliceStart == start % TWO32
    requires forall k :: 0 <= k < |times| ==> start <= times[k] < start + TWO32
    ensures During(t, Beats(times)) == t.(expired := t.expired || exists k :: 0 <= k < |times| && times[k] - start >= QUANTUM)
    decreases |times|
  {
    if times != [] {
      var u := OnTimer(t, times[0] % TWO32);
      TicksSince(start, times[0]);
      assert Beats(times)[0] == Beat(times[0] % TWO32) && Beats(times)[1..] == Beats(times[1..]);
      BeatsExpire(u, start, times[1..]);
      if exists k :: 0 <= k < |times| && times[k] - start >= QUANTUM {
        var k :| 0 <= k < |times| && times[k] - start >= QUANTUM;
        if k > 0 { assert times[1..][k - 1] - start >= QUANTUM; }
      }
      if exists k :: 0 <= k < |times[1..]| && times[1..][k] - start >= QUANTUM {
        var k :| 0 <= k < |times[1..]| && times[1..][k] - start >= QUANTUM;
        assert times[k + 1] - start >= QUANTUM;
      }
    }
  }

  /** Preemption in a run: the job that a service call at `start` picks is taken off the
      processor exactly when some tick of its slice comes 25 or more ticks after the start. */
  lemma {:induction false} SlicePreempted(t: Table, ps: Programs, start: nat, times: seq<nat>)
    requires Inv(t) && Service(t, ps, start % TWO32).1 >= 0
    requires forall k :: 0 <= k < |times| ==> start <= times[k] < start + TWO32
    ensures var (u, i) := Service(t, ps, start % TWO32);
            ShouldPreempt(During(u.(running := i), Beats(times))).1
            <==> exists k :: 0 <= k < |times| && times[k] - start >= QUANTUM
  {
    hide Scan, During, Beats, Count;
    var (u, i) := Service(t, ps, start % TWO32);
    assert Scanning(t, 0);
    ScanStarts(t, ps, start % TWO32, 0);
    BeatsExpire(u.(running := i), start, times);
  }

  lemma {:induction false} TicksSince(start: nat, now: nat)
    requires start <= now < start + TWO32
    ensures (now % TWO32 + TWO32 - start % TWO32) % TWO32 == now - start
  {
    var a, b := start % TWO32, now % TWO32;
    var d := now - start;
    if a + d < TWO32 {
      assert b == a + d;
    } else {
      assert b == a + d - TWO32;
    }
  }
}
