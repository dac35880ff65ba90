/**
 The program table: four slots, each with its own address space in the shared page
 pools. Whatever sequence of spawns, loads, time slices, exits, faults and releases is
 run, live programs stay apart.
 */
module Programs {
  import opened Common
  import opened PageTables
  import opened PageProofs
  import opened PoolProofs
  import opened Elf

  const PROGRAM_SLOTS: nat := 4
  const USER_STACK_VADDR: nat := 0x70_0000
  const USER_STACK_PAGES: nat := 4

  datatype Status = Idle | Running | Exited | Faulted

  datatype Slot = Slot(used: bool, status: Status, tables: Option<nat>, entry: nat)

  datatype System = System(pools: Pools, slots: seq<Slot>)

  /** One store instruction of user code. */
  datatype Write = Write(addr: nat, value: byte)

  /** How a stretch of user execution ends. */
  datatype Outcome = Preempted | Returned | Fault

  datatype Event =
    | Spawn(raw: seq<byte>, offset: nat, writes: seq<Write>, outcome: Outcome)
    | SpawnElf(image: seq<byte>, writes: seq<Write>, outcome: Outcome)
    | Load(image: seq<byte>)
    | RunBackground(image: seq<byte>, launched: bool)
    | Run(id: int, writes: seq<Write>, outcome: Outcome)
    | ReleaseProgram(id: int)

  predicate Shaped(sys: System) { Sized(sys.pools) && |sys.slots| == PROGRAM_SLOTS }

  // ---- user code ----

  /** The processor carries out a user store only through a user-writable mapping. */
  function Store(p: Pools, root: nat, w: Write): (r: Option<Pools>)
    requires Sized(p) && root < MAX_USER_PT
    ensures r.Some? ==> Sized(r.value)
  {
    match Walk(p, root, PageOf(w.addr))
    case Mapped(DataFrame(d), rights) =>
      if rights.user && rights.write && d < MAX_USER_DATA
      then Some(p.(data := p.data[d := p.data[d][w.addr % PAGE := w.value]]))
      else None
    case _ => None
  }

  /** The stores of a stretch of user code, up to the first that is refused. */
  function Stores(p: Pools, root: nat, ws: seq<Write>): (r: Pools)
    requires Sized(p) && root < MAX_USER_PT
    ensures Sized(r)
    decreases |ws|
  {
    if ws == [] then p
    else
      match Store(p, root, ws[0])
      case None => p
      case Some(q) => Stores(q, root, ws[1..])
  }

  // ---- slots ----

  /** First slot with the given property, or -1. */
  function FirstUnused(slots: seq<Slot>): (i: int)
    ensures -1 <= i < |slots|
    ensures i >= 0 ==> !slots[i].used
  {
    if slots == [] then -1
    else if !slots[0].used then 0
    else var i := FirstUnused(slots[1..]); if i < 0 then -1 else i + 1
  }

  function FirstFinished(slots: seq<Slot>): (i: int)
    ensures -1 <= i < |slots|
    ensures i >= 0 ==> slots[i].status.Exited? || slots[i].status.Faulted?
  {
    if slots == [] then -1
    else if slots[0].status.Exited? || slots[0].status.Faulted? then 0
    else var i := FirstFinished(slots[1..]); if i < 0 then -1 else i + 1
  }

  /** `program_release` */
  function ReleaseSlot(sys: System, id: int): (r: System)
    requires Shaped(sys)
    ensures Shaped(r)
  {
    if id < 1 || id > PROGRAM_SLOTS || !sys.slots[id - 1].used then sys
    else System(Release(sys.pools, id), sys.slots[id - 1 := Slot(false, Idle, None, sys.slots[id - 1].entry)])
  }

  /** `find_slot` */
  function FindSlot(sys: System): (r: (System, int))
    requires Shaped(sys)
    ensures Shaped(r.0) && -1 <= r.1 < PROGRAM_SLOTS
  {
    var i := FirstUnused(sys.slots);
    if i >= 0 then (sys, i)
    else
      var j := FirstFinished(sys.slots);
      if j >= 0 then (ReleaseSlot(sys, j + 1), j) else (sys, -1)
  }

  /** What `program_enter` does once control is back in the kernel. */
  function Left(sys: System, i: nat, outcome: Outcome): (r: (System, int))
    requires Shaped(sys) && i < PROGRAM_SLOTS
    ensures Shaped(r.0)
  {
    match outcome
    case Preempted => (sys, 0)
    case Returned =>
      (System(Release(sys.pools, i + 1), sys.slots[i := sys.slots[i].(status := Exited, tables := None)]), 0)
    case Fault =>
      (System(Release(sys.pools, i + 1), sys.slots[i := sys.slots[i].(status := Faulted, tables := None)]), -1)
  }

  /** `program_enter` on a slot with an address space: user code runs, then control comes
      back. */
  function Enter(sys: System, i: nat, ws: seq<Write>, outcome: Outcome): (r: (System, int))
    requires Shaped(sys) && i < PROGRAM_SLOTS
    ensures Shaped(r.0)
  {
    if sys.slots[i].tables.None? || sys.slots[i].tables.value >= MAX_USER_PT then (sys, -1)
    else Left(sys.(pools := Stores(sys.pools, sys.slots[i].tables.value, ws)), i, outcome)
  }

  /** `program_run` */
  function RunProgram(sys: System, id: int, ws: seq<Write>, outcome: Outcome): (r: (System, int))
    requires Shaped(sys)
    ensures Shaped(r.0)
  {
    if id < 1 || id > PROGRAM_SLOTS || !sys.slots[id - 1].used then (sys, -1)
    else if sys.slots[id - 1].status.Faulted? || sys.slots[id - 1].status.Exited? then (sys, -1)
    else Enter(sys.(slots := sys.slots[id - 1 := sys.slots[id - 1].(status := Running)]), id - 1, ws, outcome)
  }

  // ---- loading ----

  datatype Loaded = NoTables | Failed | Ready(root: nat, entry: nat)

  /** A stack above whatever has been mapped. */
  function AddStack(p: Pools, owner: int, root: nat, entry: nat): (r: (Pools, Loaded))
    requires Sized(p) && root < MAX_USER_PT
    ensures Sized(r.0) && (r.1.Ready? ==> r.1.root < MAX_USER_PT)
  {
    var (q, st) := MapRw(p, owner, root, USER_STACK_VADDR, USER_STACK_PAGES * PAGE, true);
    (q, if st != 0 then Failed else Ready(root, entry))
  }

  /** `program_setup_elf` */
  function SetupElf(p: Pools, owner: int, image: seq<byte>): (r: (Pools, Loaded))
    requires Sized(p)
    ensures Sized(r.0) && (r.1.Ready? ==> r.1.root < MAX_USER_PT)
  {
    match CreateTables(p, owner)
    case (q, None) => (q, Failed)
    case (q, Some(root)) =>
      match ElfLoad(q, owner, root, image)
      case (u, None) => (u, Failed)
      case (u, Some(entry)) => AddStack(u, owner, root, entry)
  }

  /** The mapping part of `program_spawn`. */
  function SetupRaw(p: Pools, owner: int, raw: seq<byte>, offset: nat): (r: (Pools, Loaded))
    requires Sized(p)
    ensures Sized(r.0) && (r.1.Ready? ==> r.1.root < MAX_USER_PT)
  {
    match CreateTables(p, owner)
    case (q, None) => (q, NoTables)
    case (q, Some(root)) =>
      var (u, st) := MapSegment(q, owner, root, RxSegment(USER_CODE_VADDR, raw));
      if st != 0 then (u, Failed) else AddStack(u, owner, root, USER_CODE_VADDR + offset)
  }

  /** `program_load_image` into a slot that `find_slot` has chosen. */
  function LoadImage(sys: System, i: nat, image: seq<byte>): (r: (System, int))
    requires Shaped(sys) && i < PROGRAM_SLOTS
    ensures Shaped(r.0) && (r.1 == -1 || r.1 == i + 1)
  {
    match SetupElf(sys.pools, i + 1, image)
    case (q, Ready(root, entry)) => (System(q, sys.slots[i := Slot(true, Idle, Some(root), entry)]), i + 1)
    case (q, _) => (System(Release(q, i + 1), sys.slots), -1)
  }

  /** `program_load_named`, once the image has been found. */
  function LoadNamed(sys: System, image: seq<byte>): (r: (System, int))
    requires Shaped(sys)
    ensures Shaped(r.0) && (r.1 == -1 || 1 <= r.1 <= PROGRAM_SLOTS)
  {
    var (s, i) := FindSlot(sys);
    if i < 0 then (s, -1) else LoadImage(s, i, image)
  }

  /** `program_spawn`: a failed mapping leaves its pages tagged. */
  function SpawnProgram(sys: System, raw: seq<byte>, offset: nat, ws: seq<Write>, outcome: Outcome): (r: System)
    requires Shaped(sys)
    ensures Shaped(r)
  {
    var (s, i) := FindSlot(sys);
    if i < 0 then s
    else
      match SetupRaw(s.pools, i + 1, raw, offset)
      case (q, NoTables) => System(Release(q, i + 1), s.slots)
      case (q, Failed) => System(q, s.slots)
      case (q, Ready(root, entry)) =>
        var (u, st) := Enter(System(q, s.slots[i := Slot(true, Running, Some(root), entry)]), i, ws, outcome);
        if st != 0 then ReleaseSlot(u, i + 1) else u
  }

  /** `program_spawn_elf` */
  function SpawnElfProgram(sys: System, image: seq<byte>, ws: seq<Write>, outcome: Outcome): (r: System)
    requires Shaped(sys)
    ensures Shaped(r)
  {
    var (s, id) := LoadNamed(sys, image);
    if id < 0 then s
    else
      var (u, st) := Enter(s.(slots := s.slots[id - 1 := s.slots[id - 1].(status := Running)]), id - 1, ws, outcome);
      if st != 0 then ReleaseSlot(u, id) else u
  }

  /** `program_run_background`: a program the scheduler refuses is forgotten, not released. */
  function RunInBackground(sys: System, image: seq<byte>, launched: bool): (r: System)
    requires Shaped(sys)
    ensures Shaped(r)
  {
    var (s, id) := LoadNamed(sys, image);
    if id < 0 || launched then s else s.(slots := s.slots[id - 1 := s.slots[id - 1].(used := false)])
  }

  function Step(sys: System, e: Event): (r: System)
    requires Shaped(sys)
    ensures Shaped(r)
  {
    match e
    case Spawn(raw, offset, ws, outcome) => SpawnProgram(sys, raw, offset, ws, outcome)
    case SpawnElf(image, ws, outcome) => SpawnElfProgram(sys, image, ws, outcome)
    case Load(image) => LoadNamed(sys, image).0
    case RunBackground(image, launched) => RunInBackground(sys, image, launched)
    case Run(id, ws, outcome) => RunProgram(sys, id, ws, outcome).0
    case ReleaseProgram(id) => ReleaseSlot(sys, id)
  }

  function Steps(sys: System, es: seq<Event>): (r: System)
    requires Shaped(sys)
    ensures Shaped(r)
    decreases |es|
  {
    if es == [] then sys else Steps(Step(sys, es[0]), es[1..])
  }

  function Boot(): (sys: System)
    ensures Shaped(sys)
  {
    System(Pools(seq(MAX_USER_PT, _ => ZeroTable()), seq(MAX_USER_DATA, _ => ZeroPage()),
                 seq(MAX_USER_PT, _ => 0), seq(MAX_USER_DATA, _ => 0)),
           seq(PROGRAM_SLOTS, _ => Slot(false, Idle, None, 0)))
  }

  // ---- the invariant ----

  predicate Live(s: Slot) { s.used && s.tables.Some? }

  /** A live program's root is a root of the forest, tagged with its id, over the
      supervisor's 4 MB; a slot in use without tables has finished. */
  ghost predicate SlotOk(sys: System, roles: seq<Role>, i: nat)
    requires Shaped(sys) && |roles| == MAX_USER_PT && i < PROGRAM_SLOTS
  {
    var s := sys.slots[i];
    && (Live(s) ==>
          && s.tables.value < MAX_USER_PT && roles[s.tables.value].Top?
          && sys.pools.tableOwner[s.tables.value] == i + 1 && KernelMapped(sys.pools, s.tables.value))
    && (s.used && (s.tables.None? || s.status.Exited? || s.status.Faulted?) ==>
          s.tables.None? && (s.status.Exited? || s.status.Faulted?))
  }

  ghost predicate Inv(sys: System, roles: seq<Role>) {
    && Shaped(sys) && |roles| == MAX_USER_PT && Forest(sys.pools, roles)
    && forall i :: 0 <= i < PROGRAM_SLOTS ==> SlotOk(sys, roles, i)
  }

  /** Every live program but that of slot k is still there and sees what it saw. */
  ghost predicate Undisturbed(sys: System, sys': System, k: int) {
    && Shaped(sys) && Shaped(sys')
    && forall i :: 0 <= i < PROGRAM_SLOTS && i != k && Live(sys.slots[i]) ==>
         && sys'.slots[i].used && sys'.slots[i].tables == sys.slots[i].tables && sys'.slots[i].entry == sys.slots[i].entry
         && SameFor(sys.pools, sys'.pools, sys.slots[i].tables.value)
  }

  // ---- parts of the steps ----

  lemma {:induction false} SameTrans(p: Pools, q: Pools, u: Pools, root: nat)
    requires SameFor(p, q, root) && SameFor(q, u, root)
    ensures SameFor(p, u, root)
  {
    hide Walk, View;
  }

  lemma {:induction false} SameKernel(p: Pools, q: Pools, root: nat)
    requires SameFor(p, q, root) && KernelMapped(p, root)
    ensures KernelMapped(q, root)
  {
    hide Walk, View;
  }

  lemma {:induction false} SameSelf(p: Pools, root: nat)
    requires Sized(p) && root < MAX_USER_PT
    ensures SameFor(p, p, root)
  {
  }

  lemma {:induction false} UndisturbedTrans(a: System, b: System, c: System, k: int)
    requires Undisturbed(a, b, k) && Undisturbed(b, c, k)
    ensures Undisturbed(a, c, k)
  {
    hide SameFor;
    forall i | 0 <= i < PROGRAM_SLOTS && i != k && Live(a.slots[i]) ensures SameFor(a.pools, c.pools, a.slots[i].tables.value) {
      SameTrans(a.pools, b.pools, c.pools, a.slots[i].tables.value);
    }
  }

  /** Pools changed without disturbing the roots other programs use. */
  lemma {:induction false} Carry(sys: System, roles: seq<Role>, q: Pools, roles': seq<Role>, slots: seq<Slot>, k: int)
    requires Inv(sys, roles) && Forest(q, roles') && |slots| == PROGRAM_SLOTS
    requires forall i :: 0 <= i < PROGRAM_SLOTS && i != k ==> slots[i] == sys.slots[i]
    requires forall i :: 0 <= i < PROGRAM_SLOTS && i != k && Live(sys.slots[i]) ==>
               var r := sys.slots[i].tables.value;
               r < MAX_USER_PT && roles'[r].Top? && q.tableOwner[r] == i + 1 && SameFor(sys.pools, q, r)
    requires 0 <= k < PROGRAM_SLOTS ==> SlotOk(System(q, slots), roles', k)
    ensures Inv(System(q, slots), roles') && Undisturbed(sys, System(q, slots), k)
  {
    hide Forest, SameFor, KernelMapped;
    ForestSized(sys.pools, roles);
    ForestSized(q, roles');
    forall i | 0 <= i < PROGRAM_SLOTS ensures SlotOk(System(q, slots), roles', i) {
      if i != k {
        assert SlotOk(sys, roles, i);
        if Live(sys.slots[i]) { SameKernel(sys.pools, q, sys.slots[i].tables.value); }
      }
    }
  }

  /** Giving back the pages of slot k. */
  lemma {:induction false} ReleaseOwner(sys: System, roles: seq<Role>, k: nat, slot: Slot) returns (roles': seq<Role>)
    requires Inv(sys, roles) && k < PROGRAM_SLOTS && !Live(slot) && (slot.used ==> slot.status.Exited? || slot.status.Faulted?)
    ensures Inv(System(Release(sys.pools, k + 1), sys.slots[k := slot]), roles')
    ensures Undisturbed(sys, System(Release(sys.pools, k + 1), sys.slots[k := slot]), k)
  {
    hide Forest, SameFor, KernelMapped, Release;
    ForestSized(sys.pools, roles);
    roles' := ReleaseRoles(sys.pools, roles, k + 1);
    ReleaseView(sys.pools, roles, k + 1);
    var q := Release(sys.pools, k + 1);
    forall i | 0 <= i < PROGRAM_SLOTS && i != k && Live(sys.slots[i])
      ensures var r := sys.slots[i].tables.value;
              r < MAX_USER_PT && roles'[r].Top? && q.tableOwner[r] == i + 1 && SameFor(sys.pools, q, r)
    {
      assert SlotOk(sys, roles, i);
    }
    Carry(sys, roles, Release(sys.pools, k + 1), roles', sys.slots[k := slot], k);
  }

  lemma {:induction false} ReleaseInv(sys: System, roles: seq<Role>, id: int) returns (roles': seq<Role>)
    requires Inv(sys, roles)
    ensures Inv(ReleaseSlot(sys, id), roles') && Undisturbed(sys, ReleaseSlot(sys, id), id - 1)
  {
    hide Forest, SameFor, KernelMapped, Release;
    roles' := roles;
    if id < 1 || id > PROGRAM_SLOTS || !sys.slots[id - 1].used {
      Unchanged(sys, roles, id - 1);
    } else {
      roles' := ReleaseOwner(sys, roles, id - 1, Slot(false, Idle, None, sys.slots[id - 1].entry));
    }
  }

  lemma {:induction false} Unchanged(sys: System, roles: seq<Role>, k: int)
    requires Inv(sys, roles)
    ensures Undisturbed(sys, sys, k)
  {
    forall i | 0 <= i < PROGRAM_SLOTS && i != k && Live(sys.slots[i]) ensures SameFor(sys.pools, sys.pools, sys.slots[i].tables.value) {
      assert SlotOk(sys, roles, i);
      SameSelf(sys.pools, sys.slots[i].tables.value);
    }
  }

  /** The slot that is handed out holds no live program, and no live program is lost. */
  lemma {:induction false} FindSlotInv(sys: System, roles: seq<Role>) returns (roles': seq<Role>)
    requires Inv(sys, roles)
    ensures var (s, i) := FindSlot(sys);
            Inv(s, roles') && Undisturbed(sys, s, -1) && (i >= 0 ==> !s.slots[i].used)
  {
    hide Forest, SameFor, KernelMapped, Release;
    roles' := roles;
    Unchanged(sys, roles, -1);
    var j := FirstFinished(sys.slots);
    if FirstUnused(sys.slots) < 0 && j >= 0 {
      assert SlotOk(sys, roles, j);
      AllUsed(sys.slots);
      roles' := ReleaseInv(sys, roles, j + 1);
    }
  }

  lemma {:induction false} AllUsed(slots: seq<Slot>)
    requires FirstUnused(slots) < 0
    ensures forall i :: 0 <= i < |slots| ==> slots[i].used
  {
    if slots != [] { AllUsed(slots[1..]); }
  }

  /** A store by user code is seen by nobody else. */
  lemma {:induction false} StoreSame(p: Pools, roles: seq<Role>, root: nat, w: Write)
    requires Forest(p, roles) && root < MAX_USER_PT && roles[root].Top? && Store(p, root, w).Some?
    ensures var q := Store(p, root, w).value;
            && q.tables == p.tables && q.tableOwner == p.tableOwner && q.dataOwner == p.dataOwner && Forest(q, roles)
            && forall r :: 0 <= r < MAX_USER_PT && roles[r].Top? && p.tableOwner[r] != p.tableOwner[root] ==> SameFor(p, q, r)
  {
    hide Walk, Forest;
    ForestSized(p, roles);
    var q := Store(p, root, w).value;
    DataOnly(p, q, roles);
    UserAccess(p, roles, root, PageOf(w.addr));
    forall r, g | 0 <= r < MAX_USER_PT && roles[r].Top? && p.tableOwner[r] != p.tableOwner[root] && 0 <= g < PAGES
      ensures Walk(q, r, g) == Walk(p, r, g) && View(q, r, g) == View(p, r, g)
    {
      WalkTables(p, q, r, g);
      if Walk(p, r, g).Mapped? && Walk(p, r, g).rights.user {
        UserAccess(p, roles, r, g);
      }
    }
  }

  lemma {:induction false} DataOnly(p: Pools, q: Pools, roles: seq<Role>)
    requires Forest(p, roles) && Sized(q) && q.tables == p.tables && q.tableOwner == p.tableOwner && q.dataOwner == p.dataOwner
    ensures Forest(q, roles)
  {
    hide Forest, TableOk;
    ForestSized(p, roles);
    ForestTables(p, roles);
    forall t | 0 <= t < MAX_USER_PT ensures RoleOk(q, roles, t) && TableOk(q, roles, t) {
      assert RoleOk(p, roles, t) && TableOk(p, roles, t);
      DataOnlyTable(p, q, roles, t);
    }
    ForestTables(q, roles);
  }

  lemma {:induction false} DataOnlyTable(p: Pools, q: Pools, roles: seq<Role>, t: nat)
    requires Sized(p) && Sized(q) && q.tables == p.tables && q.tableOwner == p.tableOwner && q.dataOwner == p.dataOwner
    requires |roles| == MAX_USER_PT && t < MAX_USER_PT && TableOk(p, roles, t)
    ensures TableOk(q, roles, t)
  {
    if LevelOf(roles[t]) >= 2 {
      forall k | 0 <= k < ENTRIES ensures UpperEntryOk(q, roles, t, k) { assert UpperEntryOk(p, roles, t, k); }
    } else if LevelOf(roles[t]) == 1 {
      forall k | 0 <= k < ENTRIES ensures LeafEntryOk(q, t, k) { assert LeafEntryOk(p, t, k); }
    }
  }

  lemma {:induction false} StoresSame(p: Pools, roles: seq<Role>, root: nat, ws: seq<Write>)
    requires Forest(p, roles) && root < MAX_USER_PT && roles[root].Top?
    ensures var q := Stores(p, root, ws);
            && q.tables == p.tables && q.tableOwner == p.tableOwner && Forest(q, roles)
            && forall r :: 0 <= r < MAX_USER_PT && roles[r].Top? && p.tableOwner[r] != p.tableOwner[root] ==> SameFor(p, q, r)
    decreases |ws|
  {
    hide SameFor, Forest, Store;
    ForestSized(p, roles);
    forall r | 0 <= r < MAX_USER_PT ensures SameFor(p, p, r) { SameSelf(p, r); }
    if ws != [] && Store(p, root, ws[0]).Some? {
      var q := Store(p, root, ws[0]).value;
      StoreSame(p, roles, root, ws[0]);
      StoresSame(q, roles, root, ws[1..]);
      var u := Stores(p, root, ws);
      forall r | 0 <= r < MAX_USER_PT && roles[r].Top? && p.tableOwner[r] != p.tableOwner[root] ensures SameFor(p, u, r) {
        SameTrans(p, q, u, r);
      }
    }
  }

  /** A stretch of execution of a live program. */
  lemma {:induction false} EnterInv(sys: System, roles: seq<Role>, i: nat, ws: seq<Write>, outcome: Outcome) returns (roles': seq<Role>)
    requires Inv(sys, roles) && i < PROGRAM_SLOTS && Live(sys.slots[i])
    ensures Inv(Enter(sys, i, ws, outcome).0, roles') && Undisturbed(sys, Enter(sys, i, ws, outcome).0, i)
  {
    hide SameFor, Forest, Stores, KernelMapped, Release;
    assert SlotOk(sys, roles, i);
    var root := sys.slots[i].tables.value;
    StoresSame(sys.pools, roles, root, ws);
    var q := Stores(sys.pools, root, ws);
    SameKernelTables(sys.pools, q, root);
    forall j | 0 <= j < PROGRAM_SLOTS && j != i && Live(sys.slots[j])
      ensures var r := sys.slots[j].tables.value;
              r < MAX_USER_PT && roles[r].Top? && q.tableOwner[r] == j + 1 && SameFor(sys.pools, q, r)
    {
      assert SlotOk(sys, roles, j);
    }
    Carry(sys, roles, q, roles, sys.slots, i);
    roles' := roles;
    if !outcome.Preempted? {
      var status := if outcome.Returned? then Exited else Faulted;
      roles' := ReleaseOwner(System(q, sys.slots), roles, i, sys.slots[i].(status := status, tables := None));
      UndisturbedTrans(sys, System(q, sys.slots), Enter(sys, i, ws, outcome).0, i);
    }
  }

  // ---- loading keeps everybody else's view ----

  /** From p to q old trees show what they showed; `root` (when given) is a live tree of
      the owner that was not there before. */
  ghost predicate Extended(p: Pools, roles: seq<Role>, q: Pools, roles': seq<Role>, owner: int, root: Option<nat>) {
    && Forest(q, roles') && KeepsRoots(p, q, roles, roles')
    && (forall r :: 0 <= r < MAX_USER_PT && roles[r].Top? ==> SameFor(p, q, r))
    && (root.Some? ==>
          && root.value < MAX_USER_PT && roles[root.value].Unused? && roles'[root.value].Top?
          && q.tableOwner[root.value] == Tag(owner) && KernelMapped(q, root.value))
  }

  /** One more mapping into the new tree. */
  lemma {:induction false} ExtendMore(p: Pools, roles: seq<Role>, q: Pools, roles': seq<Role>, u: Pools, roles'': seq<Role>,
                                      owner: int, root: nat)
    requires Extended(p, roles, q, roles', owner, Some(root))
    requires Forest(u, roles'') && KeepsRoots(q, u, roles', roles'')
    requires forall r :: 0 <= r < MAX_USER_PT && roles'[r].Top? && r != root ==> SameFor(q, u, r)
    requires KernelMapped(q, root) ==> KernelMapped(u, root)
    ensures Extended(p, roles, u, roles'', owner, Some(root)) && Extended(p, roles, u, roles'', owner, None)
  {
    hide Forest, SameFor, KernelMapped;
    forall r | 0 <= r < MAX_USER_PT && roles[r].Top? ensures SameFor(p, u, r) {
      SameTrans(p, q, u, r);
    }
  }

  lemma {:induction false} NewTree(p: Pools, roles: seq<Role>, owner: int) returns (roles': seq<Role>)
    requires Forest(p, roles)
    ensures var (q, r) := CreateTables(p, owner);
            && Extended(p, roles, q, roles', owner, r) && Extended(p, roles, q, roles', owner, None)
            && (r.Some? ==> forall g :: 0 <= g < PAGES ==> View(q, r.value, g) == None)
  {
    hide Forest, SameFor, Walk;
    ForestSized(p, roles);
    roles' := CreateView(p, roles, owner);
    var q, r := CreateTables(p, owner).0, CreateTables(p, owner).1;
    if r.Some? {
      forall g | 0 <= g < PAGES ensures View(q, r.value, g) == None {
        if g < KERNEL_PAGES { assert Walk(q, r.value, g) == Mapped(Phys(g * PAGE), Rights(true, false, true)); }
      }
    }
  }

  function StackSegment(): Segment { RwSegment(USER_STACK_VADDR, USER_STACK_PAGES * PAGE) }

  /** What a fresh program sees: its segments, then its stack over them. */
  ghost predicate Shows(p: Pools, root: nat, segs: seq<Segment>) {
    Sized(p) && root < MAX_USER_PT && forall g :: 0 <= g < PAGES ==> View(p, root, g) == Overlay(segs, g, None)
  }

  lemma {:induction false} AddStackInv(p: Pools, roles: seq<Role>, q: Pools, roles': seq<Role>, owner: int, root: nat, entry: nat,
                                       segs: seq<Segment>) returns (roles'': seq<Role>)
    requires Extended(p, roles, q, roles', owner, Some(root)) && Shows(q, root, segs)
    ensures var (u, l) := AddStack(q, owner, root, entry);
            && Extended(p, roles, u, roles'', owner, if l.Ready? then Some(l.root) else None)
            && (l.Ready? ==> l.root == root && l.entry == entry && Shows(u, root, segs + [StackSegment()]))
  {
    hide Forest, SameFor, KernelMapped, View, MapSegment, Overlay;
    ForestSized(q, roles');
    var (u, l) := AddStack(q, owner, root, entry);
    roles'' := SegmentView(q, roles', owner, root, StackSegment());
    ExtendMore(p, roles, q, roles', u, roles'', owner, root);
    if l.Ready? {
      forall g | 0 <= g < PAGES ensures View(u, root, g) == Overlay(segs + [StackSegment()], g, None) {
        OverlayAppend(segs, [StackSegment()], g, None);
      }
    }
  }

  lemma {:induction false} SetupElfInv(p: Pools, roles: seq<Role>, owner: int, image: seq<byte>) returns (roles': seq<Role>)
    requires Forest(p, roles)
    ensures var (q, l) := SetupElf(p, owner, image);
            && Extended(p, roles, q, roles', owner, if l.Ready? then Some(l.root) else None)
            && (l.Ready? ==> Shows(q, l.root, Segments(image) + [StackSegment()]))
  {
    hide Forest, SameFor, KernelMapped, View, CreateTables, ElfLoad, AddStack, Overlay, Segments, Extended;
    ForestSized(p, roles);
    roles' := NewTree(p, roles, owner);
    var (q, r) := CreateTables(p, owner);
    if r.Some? {
      var root := r.value;
      ghost var mid := roles';
      roles' := LoadTree(p, roles, q, mid, owner, root, image);
      var (u, e) := ElfLoad(q, owner, root, image);
      if e.Some? {
        ghost var mid' := roles';
        roles' := AddStackInv(p, roles, u, mid', owner, root, e.value, Segments(image));
      }
    }
  }

  lemma {:induction false} LoadTree(p: Pools, roles: seq<Role>, q: Pools, roles': seq<Role>, owner: int, root: nat, image: seq<byte>)
    returns (roles'': seq<Role>)
    requires Extended(p, roles, q, roles', owner, Some(root)) && forall g :: 0 <= g < PAGES ==> View(q, root, g) == None
    ensures var (u, e) := ElfLoad(q, owner, root, image);
            && Extended(p, roles, u, roles'', owner, Some(root)) && Extended(p, roles, u, roles'', owner, None)
            && (e.Some? ==> Shows(u, root, Segments(image)))
  {
    hide Forest, SameFor, KernelMapped, View, ElfLoad, Overlay, Segments;
    ForestSized(q, roles');
    roles'' := LoadView(q, roles', owner, root, image);
    ExtendMore(p, roles, q, roles', ElfLoad(q, owner, root, image).0, roles'', owner, root);
  }

  lemma {:induction false} RawTree(p: Pools, roles: seq<Role>, q: Pools, roles': seq<Role>, owner: int, root: nat, raw: seq<byte>)
    returns (roles'': seq<Role>)
    requires Extended(p, roles, q, roles', owner, Some(root)) && forall g :: 0 <= g < PAGES ==> View(q, root, g) == None
    ensures var (u, st) := MapSegment(q, owner, root, RxSegment(USER_CODE_VADDR, raw));
            && Extended(p, roles, u, roles'', owner, Some(root)) && Extended(p, roles, u, roles'', owner, None)
            && (st == 0 ==> Shows(u, root, [RxSegment(USER_CODE_VADDR, raw)]))
  {
    hide Forest, SameFor, KernelMapped, View, MapSegment, Overlay;
    ForestSized(q, roles');
    roles'' := SegmentView(q, roles', owner, root, RxSegment(USER_CODE_VADDR, raw));
    ExtendMore(p, roles, q, roles', MapSegment(q, owner, root, RxSegment(USER_CODE_VADDR, raw)).0, roles'', owner, root);
  }

  lemma {:induction false} SetupRawInv(p: Pools, roles: seq<Role>, owner: int, raw: seq<byte>, offset: nat) returns (roles': seq<Role>)
    requires Forest(p, roles)
    ensures var (q, l) := SetupRaw(p, owner, raw, offset);
            && Extended(p, roles, q, roles', owner, if l.Ready? then Some(l.root) else None)
            && (l.Ready? ==> Shows(q, l.root, [RxSegment(USER_CODE_VADDR, raw), StackSegment()]))
  {
    hide Forest, SameFor, KernelMapped, View, CreateTables, MapSegment, AddStack, Overlay, Extended;
    ForestSized(p, roles);
    roles' := NewTree(p, roles, owner);
    var (q, r) := CreateTables(p, owner);
    if r.Some? {
      ghost var mid := roles';
      roles' := RawTree(p, roles, q, mid, owner, r.value, raw);
      var (u, st) := MapSegment(q, owner, r.value, RxSegment(USER_CODE_VADDR, raw));
      if st == 0 {
        ghost var mid' := roles';
        roles' := AddStackInv(p, roles, u, mid', owner, r.value, USER_CODE_VADDR + offset, [RxSegment(USER_CODE_VADDR, raw)]);
        assert [RxSegment(USER_CODE_VADDR, raw)] + [StackSegment()] == [RxSegment(USER_CODE_VADDR, raw), StackSegment()];
      }
    }
  }

  /** Extended pools, with the new tree entered in a slot that held no live program. */
  lemma {:induction false} Install(sys: System, roles: seq<Role>, q: Pools, roles': seq<Role>, k: nat, root: Option<nat>, slot: Slot)
    requires Inv(sys, roles) && k < PROGRAM_SLOTS && !sys.slots[k].used
    requires Extended(sys.pools, roles, q, roles', k + 1, root)
    requires slot == sys.slots[k] || (root.Some? && slot.tables == root && !slot.status.Exited? && !slot.status.Faulted?)
    ensures Inv(System(q, sys.slots[k := slot]), roles') && Undisturbed(sys, System(q, sys.slots[k := slot]), -1)
  {
    hide Forest, SameFor, KernelMapped;
    ForestSized(q, roles');
    forall i | 0 <= i < PROGRAM_SLOTS && i != k && Live(sys.slots[i])
      ensures var r := sys.slots[i].tables.value;
              r < MAX_USER_PT && roles'[r].Top? && q.tableOwner[r] == i + 1 && SameFor(sys.pools, q, r)
    {
      assert SlotOk(sys, roles, i);
    }
    Carry(sys, roles, q, roles', sys.slots[k := slot], k);
  }

  lemma {:induction false} LoadImageInv(sys: System, roles: seq<Role>, k: nat, image: seq<byte>) returns (roles': seq<Role>)
    requires Inv(sys, roles) && k < PROGRAM_SLOTS && !sys.slots[k].used
    ensures var (s, id) := LoadImage(sys, k, image);
            && Inv(s, roles') && Undisturbed(sys, s, -1)
            && (id > 0 ==> Live(s.slots[k]) && s.slots[k].tables.value < MAX_USER_PT && s.slots[k].status == Idle
                           && Shows(s.pools, s.slots[k].tables.value, Segments(image) + [StackSegment()]))
  {
    hide Forest, SameFor, KernelMapped, SetupElf, Shows, Release, Extended;
    roles' := SetupElfInv(sys.pools, roles, k + 1, image);
    var (q, l) := SetupElf(sys.pools, k + 1, image);
    if l.Ready? {
      Install(sys, roles, q, roles', k, Some(l.root), Slot(true, Idle, Some(l.root), l.entry));
    } else {
      roles' := GiveBack(sys, roles, q, roles', k);
    }
  }

  /** A failed load: whatever was taken for slot k is released. */
  lemma {:induction false} GiveBack(sys: System, roles: seq<Role>, q: Pools, mid: seq<Role>, k: nat) returns (roles': seq<Role>)
    requires Inv(sys, roles) && k < PROGRAM_SLOTS && !sys.slots[k].used && Extended(sys.pools, roles, q, mid, k + 1, None)
    ensures Sized(q) && Inv(System(Release(q, k + 1), sys.slots), roles')
    ensures Undisturbed(sys, System(Release(q, k + 1), sys.slots), -1)
  {
    hide Forest, SameFor, KernelMapped, Release, Extended;
    Install(sys, roles, q, mid, k, None, sys.slots[k]);
    assert sys.slots[k := sys.slots[k]] == sys.slots;
    roles' := ReleaseOwner(System(q, sys.slots), mid, k, sys.slots[k]);
    DeadSlot(System(q, sys.slots), System(Release(q, k + 1), sys.slots), k);
    UndisturbedTrans(sys, System(q, sys.slots), System(Release(q, k + 1), sys.slots), -1);
  }

  lemma {:induction false} DeadSlot(a: System, b: System, k: nat)
    requires Undisturbed(a, b, k) && k < PROGRAM_SLOTS && !Live(a.slots[k])
    ensures Undisturbed(a, b, -1)
  {
    hide SameFor;
  }

  // ---- whole steps ----

  lemma {:induction false} LoadNamedInv(sys: System, roles: seq<Role>, image: seq<byte>) returns (roles': seq<Role>)
    requires Inv(sys, roles)
    ensures var (s, id) := LoadNamed(sys, image);
            && Inv(s, roles') && Undisturbed(sys, s, -1)
            && (id > 0 ==> !Live(FindSlot(sys).0.slots[id - 1]) && FindSlot(sys).1 == id - 1 && Live(s.slots[id - 1])
                           && s.slots[id - 1].status == Idle)
  {
    hide Forest, SameFor, KernelMapped, FindSlot, LoadImage, Shows;
    roles' := FindSlotInv(sys, roles);
    var (s, i) := FindSlot(sys);
    if i >= 0 {
      ghost var mid := roles';
      roles' := LoadImageInv(s, mid, i, image);
      UndisturbedTrans(sys, s, LoadImage(s, i, image).0, -1);
    }
  }

  /** A slot's status says nothing about its pages. */
  lemma {:induction false} Restatus(sys: System, roles: seq<Role>, k: nat)
    requires Inv(sys, roles) && k < PROGRAM_SLOTS && Live(sys.slots[k])
    ensures Inv(sys.(slots := sys.slots[k := sys.slots[k].(status := Running)]), roles)
    ensures Undisturbed(sys, sys.(slots := sys.slots[k := sys.slots[k].(status := Running)]), -1)
  {
    hide Forest, SameFor, KernelMapped;
    var s := sys.(slots := sys.slots[k := sys.slots[k].(status := Running)]);
    forall i | 0 <= i < PROGRAM_SLOTS ensures SlotOk(s, roles, i) { assert SlotOk(sys, roles, i); }
    forall i | 0 <= i < PROGRAM_SLOTS && Live(sys.slots[i]) ensures SameFor(sys.pools, s.pools, sys.slots[i].tables.value) {
      assert SlotOk(sys, roles, i);
      SameSelf(sys.pools, sys.slots[i].tables.value);
    }
  }

  /** A program is entered, and released if it does not come back well. */
  lemma {:induction false} EnterOrRelease(sys: System, roles: seq<Role>, k: nat, ws: seq<Write>, outcome: Outcome) returns (roles': seq<Role>)
    requires Inv(sys, roles) && k < PROGRAM_SLOTS && Live(sys.slots[k])
    ensures var (u, st) := Enter(sys, k, ws, outcome);
            var v := if st != 0 then ReleaseSlot(u, k + 1) else u;
            Inv(v, roles') && Undisturbed(sys, v, k)
  {
    hide Forest, SameFor, KernelMapped, Enter, ReleaseSlot;
    roles' := EnterInv(sys, roles, k, ws, outcome);
    var (u, st) := Enter(sys, k, ws, outcome);
    if st != 0 {
      ghost var mid := roles';
      roles' := ReleaseInv(u, mid, k + 1);
      UndisturbedTrans(sys, u, ReleaseSlot(u, k + 1), k);
    }
  }

  lemma {:induction false} ForNewSlot(a: System, b: System, c: System, k: nat)
    requires Undisturbed(a, b, -1) && Undisturbed(b, c, k) && k < PROGRAM_SLOTS && !Live(a.slots[k])
    ensures Undisturbed(a, c, -1)
  {
    hide SameFor;
    forall i | 0 <= i < PROGRAM_SLOTS && Live(a.slots[i]) ensures SameFor(a.pools, c.pools, a.slots[i].tables.value) {
      SameTrans(a.pools, b.pools, c.pools, a.slots[i].tables.value);
    }
  }

  lemma {:induction false} SpawnElfInv(sys: System, roles: seq<Role>, image: seq<byte>, ws: seq<Write>, outcome: Outcome)
    returns (roles': seq<Role>)
    requires Inv(sys, roles)
    ensures Inv(SpawnElfProgram(sys, image, ws, outcome), roles') && Undisturbed(sys, SpawnElfProgram(sys, image, ws, outcome), -1)
  {
    hide Forest, SameFor, KernelMapped, LoadNamed, Enter, ReleaseSlot, FindSlot;
    roles' := LoadNamedInv(sys, roles, image);
    var (s, id) := LoadNamed(sys, image);
    if id > 0 {
      ghost var mid := roles';
      Restatus(s, mid, id - 1);
      var t := s.(slots := s.slots[id - 1 := s.slots[id - 1].(status := Running)]);
      UndisturbedTrans(sys, s, t, -1);
      roles' := EnterOrRelease(t, mid, id - 1, ws, outcome);
      NotLiveBefore(sys, roles, id - 1);
      ForNewSlot(sys, t, SpawnElfProgram(sys, image, ws, outcome), id - 1);
    }
  }

  lemma {:induction false} NotLiveBefore(sys: System, roles: seq<Role>, k: nat)
    requires Inv(sys, roles) && FindSlot(sys).1 == k && k < PROGRAM_SLOTS
    ensures !Live(sys.slots[k])
  {
    hide Forest, SameFor, KernelMapped;
    assert SlotOk(sys, roles, k);
  }

  lemma {:induction false} SpawnInv(sys: System, roles: seq<Role>, raw: seq<byte>, offset: nat, ws: seq<Write>, outcome: Outcome)
    returns (roles': seq<Role>)
    requires Inv(sys, roles)
    ensures Inv(SpawnProgram(sys, raw, offset, ws, outcome), roles')
    ensures Undisturbed(sys, SpawnProgram(sys, raw, offset, ws, outcome), -1)
  {
    hide Forest, SameFor, KernelMapped, SetupRaw, Enter, ReleaseSlot, FindSlot, Release, Extended, Shows;
    roles' := FindSlotInv(sys, roles);
    var (s, i) := FindSlot(sys);
    if i >= 0 {
      ghost var r0 := roles';
      var (q, l) := SetupRaw(s.pools, i + 1, raw, offset);
      ghost var r1 := SetupRawInv(s.pools, r0, i + 1, raw, offset);
      match l {
        case NoTables =>
          roles' := GiveBack(s, r0, q, r1, i);
          UndisturbedTrans(sys, s, System(Release(q, i + 1), s.slots), -1);
        case Failed =>
          Install(s, r0, q, r1, i, None, s.slots[i]);
          assert s.slots[i := s.slots[i]] == s.slots;
          roles' := r1;
          UndisturbedTrans(sys, s, System(q, s.slots), -1);
        case Ready(root, entry) =>
          var t := System(q, s.slots[i := Slot(true, Running, Some(root), entry)]);
          Install(s, r0, q, r1, i, Some(root), Slot(true, Running, Some(root), entry));
          UndisturbedTrans(sys, s, t, -1);
          roles' := EnterOrRelease(t, r1, i, ws, outcome);
          NotLiveBefore(sys, roles, i);
          ForNewSlot(sys, t, SpawnProgram(sys, raw, offset, ws, outcome), i);
      }
    }
  }

  lemma {:induction false} BackgroundInv(sys: System, roles: seq<Role>, image: seq<byte>, launched: bool) returns (roles': seq<Role>)
    requires Inv(sys, roles)
    ensures Inv(RunInBackground(sys, image, launched), roles') && Undisturbed(sys, RunInBackground(sys, image, launched), -1)
  {
    hide Forest, SameFor, KernelMapped, LoadNamed, FindSlot;
    roles' := LoadNamedInv(sys, roles, image);
    var (s, id) := LoadNamed(sys, image);
    if id > 0 && !launched {
      var t := RunInBackground(sys, image, launched);
      forall i | 0 <= i < PROGRAM_SLOTS ensures SlotOk(t, roles', i) { assert SlotOk(s, roles', i); }
      NotLiveBefore(sys, roles, id - 1);
    }
  }

  lemma {:induction false} RunInv(sys: System, roles: seq<Role>, id: int, ws: seq<Write>, outcome: Outcome) returns (roles': seq<Role>)
    requires Inv(sys, roles)
    ensures Inv(RunProgram(sys, id, ws, outcome).0, roles') && Undisturbed(sys, RunProgram(sys, id, ws, outcome).0, id - 1)
  {
    hide Forest, SameFor, KernelMapped, Enter;
    roles' := roles;
    Unchanged(sys, roles, id - 1);
    if 1 <= id <= PROGRAM_SLOTS && sys.slots[id - 1].used && !sys.slots[id - 1].status.Faulted? && !sys.slots[id - 1].status.Exited? {
      assert SlotOk(sys, roles, id - 1);
      Restatus(sys, roles, id - 1);
      var t := sys.(slots := sys.slots[id - 1 := sys.slots[id - 1].(status := Running)]);
      roles' := EnterInv(t, roles, id - 1, ws, outcome);
      WeakerTarget(sys, t, id - 1);
      UndisturbedTrans(sys, t, RunProgram(sys, id, ws, outcome).0, id - 1);
    }
  }

  lemma {:induction false} WeakerTarget(a: System, b: System, k: int)
    requires Undisturbed(a, b, -1)
    ensures Undisturbed(a, b, k)
  {
    hide SameFor;
  }

  /** The one live program an event may touch. */
  function Target(e: Event): int {
    match e
    case Run(id, _, _) => id - 1
    case ReleaseProgram(id) => id - 1
    case _ => -1
  }

  /** Every step keeps the invariant, and no live program but the one that is run or
      released is disturbed: loading and spawning touch nobody. */
  lemma {:induction false} StepInv(sys: System, roles: seq<Role>, e: Event) returns (roles': seq<Role>)
    requires Inv(sys, roles)
    ensures Inv(Step(sys, e), roles') && Undisturbed(sys, Step(sys, e), Target(e))
  {
    hide Inv, Undisturbed, SpawnProgram, SpawnElfProgram, LoadNamed, RunInBackground, RunProgram, ReleaseSlot, FindSlot;
    InvShaped(sys, roles);
    match e
    case Spawn(raw, offset, ws, outcome) => roles' := SpawnInv(sys, roles, raw, offset, ws, outcome);
    case SpawnElf(image, ws, outcome) => roles' := SpawnElfInv(sys, roles, image, ws, outcome);
    case Load(image) => roles' := LoadNamedInv(sys, roles, image);
    case RunBackground(image, launched) => roles' := BackgroundInv(sys, roles, image, launched);
    case Run(id, ws, outcome) => roles' := RunInv(sys, roles, id, ws, outcome);
    case ReleaseProgram(id) => roles' := ReleaseInv(sys, roles, id);
  }

  lemma {:induction false} InvShaped(sys: System, roles: seq<Role>)
    requires Inv(sys, roles)
    ensures Shaped(sys) && |roles| == MAX_USER_PT && Forest(sys.pools, roles)
  {
  }

  lemma {:induction false} StepsInv(sys: System, roles: seq<Role>, es: seq<Event>) returns (roles': seq<Role>)
    requires Inv(sys, roles)
    ensures Inv(Steps(sys, es), roles')
    decreases |es|
  {
    hide Inv, Undisturbed, Step;
    InvShaped(sys, roles);
    roles' := roles;
    if es != [] {
      roles' := StepInv(sys, roles, es[0]);
      ghost var mid := roles';
      roles' := StepsInv(Step(sys, es[0]), mid, es[1..]);
    }
  }

  lemma {:induction false} BootInv() returns (roles: seq<Role>)
    ensures Inv(Boot(), roles)
  {
    roles := seq(MAX_USER_PT, _ => Unused);
  }

  /** Two live programs never share a page that either can reach, whatever has been run. */
  lemma {:induction false} LiveProgramsIsolated(es: seq<Event>, i: nat, j: nat, g: nat, h: nat)
    requires i < PROGRAM_SLOTS && j < PROGRAM_SLOTS && i != j && Live(Steps(Boot(), es).slots[i]) && Live(Steps(Boot(), es).slots[j])
    ensures var sys := Steps(Boot(), es);
            var (r, s) := (sys.slots[i].tables.value, sys.slots[j].tables.value);
            && r < MAX_USER_PT && s < MAX_USER_PT
            && var (v, w) := (Walk(sys.pools, r, g), Walk(sys.pools, s, h));
               v.Mapped? && v.rights.user && w.Mapped? && w.rights.user ==> v.frame != w.frame
  {
    hide Steps, Forest, KernelMapped, Walk;
    var roles := BootInv();
    roles := StepsInv(Boot(), roles, es);
    var sys := Steps(Boot(), es);
    assert SlotOk(sys, roles, i) && SlotOk(sys, roles, j);
    var r, s := sys.slots[i].tables.value, sys.slots[j].tables.value;
    var v, w := Walk(sys.pools, r, g), Walk(sys.pools, s, h);
    if v.Mapped? && v.rights.user && w.Mapped? && w.rights.user {
      Isolation(sys.pools, roles, r, g, s, h);
    }
  }

  /** W^X and the kernel's protection hold in every live program, whatever has been run. */
  lemma {:induction false} LiveProgramsGuarded(es: seq<Event>, i: nat, g: nat)
    requires i < PROGRAM_SLOTS && Live(Steps(Boot(), es).slots[i]) && g < PAGES
    ensures var sys := Steps(Boot(), es);
            var r := sys.slots[i].tables.value;
            && r < MAX_USER_PT
            && var w := Walk(sys.pools, r, g);
               && (w.Mapped? && w.rights.user ==> !(w.rights.write && w.rights.exec))
               && (g < KERNEL_PAGES ==> w == Mapped(Phys(g * PAGE), Rights(true, false, true)))
  {
    hide Steps, Forest, Walk;
    var roles := BootInv();
    roles := StepsInv(Boot(), roles, es);
    var sys := Steps(Boot(), es);
    assert SlotOk(sys, roles, i);
    var r := sys.slots[i].tables.value;
    var w := Walk(sys.pools, r, g);
    if w.Mapped? && w.rights.user { UserAccess(sys.pools, roles, r, g); }
  }

  /** A live program that is neither run nor released stays live and keeps its memory, bit
      by bit, through any number of other programs' steps. */
  lemma {:induction false} UntouchedKeepsMemory(sys: System, roles: seq<Role>, es: seq<Event>, i: nat)
    requires Inv(sys, roles) && i < PROGRAM_SLOTS && Live(sys.slots[i])
    requires forall k :: 0 <= k < |es| ==> Target(es[k]) != i
    ensures var s := Steps(sys, es);
            Live(s.slots[i]) && s.slots[i].tables == sys.slots[i].tables && SameFor(sys.pools, s.pools, sys.slots[i].tables.value)
    decreases |es|
  {
    hide Inv, Step, SameFor, Target;
    InvShaped(sys, roles);
    if es == [] {
      Unchanged(sys, roles, -1);
    } else {
      var roles' := StepInv(sys, roles, es[0]);
      var mid := Step(sys, es[0]);
      assert Target(es[0]) != i;
      UntouchedKeepsMemory(mid, roles', es[1..], i);
      SameTrans(sys.pools, mid.pools, Steps(sys, es).pools, sys.slots[i].tables.value);
    }
  }
}
