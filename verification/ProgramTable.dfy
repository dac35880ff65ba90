/**
 The program table as it runs: the slot array and the page pools are updated in place
 across find, load, enter and release. Each method is proved to be the step of
 `Programs` it implements.
 */
module ProgramTable {
  import opened Common
  import opened PageTables
  import opened PageProofs
  import opened PoolProofs
  import opened Elf
  import opened UserMemory
  import opened Programs

  /** One step of the processor's walk: the table an entry leads to. */
  method Follow(m: Manager, t: nat, i: nat) returns (c: Option<nat>, e: Pte)
    requires m.Valid() && t < MAX_USER_PT && i < ENTRIES
    ensures e == Entry(m.Contents(), t, i) && c == Child(m.Contents(), e)
  {
    e := m.GetEntry(t, i);
    c := if e.present && !e.huge && e.frame.TableFrame? && e.frame.t < MAX_USER_PT then Some(e.frame.t) else None;
  }

  /** The processor's walk over the tables. */
  method MmuWalk(m: Manager, root: nat, page: nat) returns (w: Walked)
    requires m.Valid() && root < MAX_USER_PT
    ensures w == Walk(m.Contents(), root, page)
  {
    hide Index;
    ghost var p := m.Contents();
    var c, e4 := Follow(m, root, Index(page, 4));
    assert Route(p, root, page, 1) == c;
    assert c == None ==> Route(p, root, page, 2) == None;
    if c.None? { return Unmapped; }
    var d, e3 := Follow(m, c.value, Index(page, 3));
    assert Route(p, root, page, 2) == d;
    if d.None? { return Unmapped; }
    var r := Restrict(Restrict(Rights(true, true, true), e4), e3);
    assert r == RouteRights(p, root, page, 2);
    var pt, e2 := Follow(m, d.value, Index(page, 2));
    if e2.present && e2.huge {
      if !e2.frame.Phys? { return Unmapped; }
      return Mapped(Phys(e2.frame.addr + Index(page, 1) * PAGE), Restrict(r, e2));
    }
    assert Route(p, root, page, 3) == pt;
    if pt.None? { return Unmapped; }
    var leaf := m.GetEntry(pt.value, Index(page, 1));
    w := if leaf.present then Mapped(leaf.frame, Restrict(Restrict(r, e2), leaf)) else Unmapped;
  }

  /** One byte stored through the walk. */
  method StoreByte(m: Manager, d: nat, at: nat, b: byte)
    requires m.Valid() && d < MAX_USER_DATA && at < PAGE
    modifies m.dataPool
    ensures m.Contents() == old(m.Contents()).(data := old(m.Contents()).data[d := old(m.Contents()).data[d][at := b]])
  {
    m.dataPool[d, at] := b;
    forall u | 0 <= u < MAX_USER_DATA
      ensures PageAt(m.dataPool, u) == if u == d then old(PageAt(m.dataPool, d))[at := b] else old(PageAt(m.dataPool, u))
    {
    }
  }

  /** A stretch of user code: its stores, up to the first one that faults. */
  method UserRuns(m: Manager, root: nat, ws: seq<Write>)
    requires m.Valid() && root < MAX_USER_PT
    modifies m.dataPool
    ensures m.Contents() == Stores(old(m.Contents()), root, ws)
  {
    hide Walk, PageOf;
    var i := 0;
    while i < |ws|
      invariant i <= |ws| && Stores(m.Contents(), root, ws[i..]) == Stores(old(m.Contents()), root, ws)
    {
      assert ws[i..][0] == ws[i] && ws[i..][1..] == ws[i + 1..];
      var w := MmuWalk(m, root, PageOf(ws[i].addr));
      if w.Unmapped? || !w.frame.DataFrame? || !w.rights.user || !w.rights.write || w.frame.d >= MAX_USER_DATA { return; }
      StoreByte(m, w.frame.d, ws[i].addr % PAGE, ws[i].value);
      i := i + 1;
    }
  }

  class Table {
    const memory: Manager
    const slots: array<Slot>

    ghost predicate Valid() {
      memory.Valid() && slots.Length == PROGRAM_SLOTS
    }

    ghost function State(): (sys: System)
      requires Valid()
      reads slots, memory.ptPool, memory.dataPool, memory.ptOwner, memory.dataOwner
      ensures Shaped(sys)
    {
      System(memory.Contents(), slots[..])
    }

    constructor ()
      ensures Valid() && fresh(slots) && fresh(memory) && fresh(memory.ptPool) && fresh(memory.dataPool)
      ensures fresh(memory.ptOwner) && fresh(memory.dataOwner)
      ensures State() == Boot()
    {
      memory := new Manager();
      slots := new Slot[PROGRAM_SLOTS](_ => Slot(false, Idle, None, 0));
    }

    /** `program_release` */
    method ReleaseProgram(id: int)
      requires Valid()
      modifies slots, memory.ptOwner, memory.dataOwner
      ensures State() == ReleaseSlot(old(State()), id)
    {
      if id < 1 || id > PROGRAM_SLOTS || !slots[id - 1].used { return; }
      slots[id - 1] := Slot(false, Idle, None, slots[id - 1].entry);
      memory.ReleaseUser(id);
    }

    /** `find_slot` */
    method FindFree() returns (i: int)
      requires Valid()
      modifies slots, memory.ptOwner, memory.dataOwner
      ensures (State(), i) == FindSlot(old(State()))
    {
      i := 0;
      while i < PROGRAM_SLOTS
        invariant 0 <= i <= PROGRAM_SLOTS && forall j :: 0 <= j < i ==> slots[j].used
      {
        if !slots[i].used {
          FirstUnusedIs(slots[..], i);
          return;
        }
        i := i + 1;
      }
      NoneUnused(slots[..]);
      i := 0;
      while i < PROGRAM_SLOTS
        invariant 0 <= i <= PROGRAM_SLOTS && forall j :: 0 <= j < i ==> !slots[j].status.Exited? && !slots[j].status.Faulted?
      {
        if slots[i].status.Exited? || slots[i].status.Faulted? {
          FirstFinishedIs(slots[..], i);
          ReleaseProgram(i + 1);
          return;
        }
        i := i + 1;
      }
      i := -1;
    }

    /** `program_setup_elf` */
    method SetUpImage(image: seq<byte>, ghost roles: seq<Role>) returns (l: Loaded)
      requires Valid() && Forest(memory.Contents(), roles)
      modifies memory.ptPool, memory.dataPool, memory.ptOwner, memory.dataOwner
      ensures (memory.Contents(), l) == SetupElf(old(memory.Contents()), memory.allocOwner, image)
      ensures slots[..] == old(slots[..])
    {
      hide Forest, ElfLoad, CreateTables, MapSegment;
      ghost var roles' := CreateView(memory.Contents(), roles, memory.allocOwner);
      var root := memory.CreateUserTables();
      if root == -1 { return Failed; }
      var entry;
      entry, roles' := memory.LoadImage(root, image, roles');
      if entry.None? { return Failed; }
      var st;
      st, roles' := memory.MapUserRw(root, USER_STACK_VADDR, USER_STACK_PAGES * PAGE, true, roles');
      if st != 0 { return Failed; }
      l := Ready(root, entry.value);
    }

    /** `program_load_image` */
    method LoadInto(i: nat, image: seq<byte>, ghost roles: seq<Role>) returns (id: int)
      requires Valid() && i < PROGRAM_SLOTS && Forest(State().pools, roles)
      modifies slots, memory, memory.ptPool, memory.dataPool, memory.ptOwner, memory.dataOwner
      ensures (State(), id) == LoadImage(old(State()), i, image)
    {
      hide Forest, SetupElf, Release;
      memory.SetOwner(i + 1);
      var l := SetUpImage(image, roles);
      if !l.Ready? {
        memory.ReleaseUser(i + 1);
        return -1;
      }
      slots[i] := Slot(true, Idle, Some(l.root), l.entry);
      id := i + 1;
    }

    /** The mapping part of `program_spawn`. */
    method SetUpRaw(raw: seq<byte>, offset: nat, ghost roles: seq<Role>) returns (l: Loaded)
      requires Valid() && Forest(memory.Contents(), roles)
      modifies memory.ptPool, memory.dataPool, memory.ptOwner, memory.dataOwner
      ensures (memory.Contents(), l) == SetupRaw(old(memory.Contents()), memory.allocOwner, raw, offset)
      ensures slots[..] == old(slots[..])
    {
      hide Forest, CreateTables, MapSegment;
      ghost var roles' := CreateView(memory.Contents(), roles, memory.allocOwner);
      var root := memory.CreateUserTables();
      if root == -1 { return NoTables; }
      var st;
      st, roles' := memory.MapUserRx(root, USER_CODE_VADDR, raw, roles');
      if st != 0 { return Failed; }
      st, roles' := memory.MapUserRw(root, USER_STACK_VADDR, USER_STACK_PAGES * PAGE, true, roles');
      if st != 0 { return Failed; }
      l := Ready(root, USER_CODE_VADDR + offset);
    }

    /** The end of `program_enter`, when control is back in the kernel. */
    method Leave(i: nat, outcome: Outcome) returns (st: int)
      requires Valid() && i < PROGRAM_SLOTS
      modifies slots, memory.ptOwner, memory.dataOwner
      ensures (State(), st) == Left(old(State()), i, outcome)
    {
      if outcome.Fault? {
        slots[i] := slots[i].(status := Faulted, tables := None);
        memory.ReleaseUser(i + 1);
        return -1;
      }
      if outcome.Returned? {
        slots[i] := slots[i].(status := Exited, tables := None);
        memory.ReleaseUser(i + 1);
        return 0;
      }
      st := 0;
    }

    /** `program_enter` */
    method EnterProgram(i: nat, ws: seq<Write>, outcome: Outcome) returns (st: int)
      requires Valid() && i < PROGRAM_SLOTS
      modifies slots, memory.dataPool, memory.ptOwner, memory.dataOwner
      ensures (State(), st) == Enter(old(State()), i, ws, outcome)
    {
      hide Stores, Left;
      var tables := slots[i].tables;
      if tables.None? || tables.value >= MAX_USER_PT { return -1; }
      UserRuns(memory, tables.value, ws);
      assert slots[..] == old(slots[..]);
      st := Leave(i, outcome);
    }

    /** `program_run` */
    method RunById(id: int, ws: seq<Write>, outcome: Outcome) returns (st: int)
      requires Valid()
      modifies slots, memory.dataPool, memory.ptOwner, memory.dataOwner
      ensures (State(), st) == RunProgram(old(State()), id, ws, outcome)
    {
      hide Enter;
      if id < 1 || id > PROGRAM_SLOTS || !slots[id - 1].used { return -1; }
      if slots[id - 1].status.Faulted? || slots[id - 1].status.Exited? { return -1; }
      slots[id - 1] := slots[id - 1].(status := Running);
      st := EnterProgram(id - 1, ws, outcome);
    }

    /** `program_spawn` */
    method SpawnRaw(raw: seq<byte>, offset: nat, ws: seq<Write>, outcome: Outcome, ghost roles: seq<Role>) returns (id: int)
      requires Valid() && Inv(State(), roles)
      modifies slots, memory, memory.ptPool, memory.dataPool, memory.ptOwner, memory.dataOwner
      ensures State() == SpawnProgram(old(State()), raw, offset, ws, outcome)
    {
      hide Forest, SetupRaw, FindSlot, SlotOk, Undisturbed, Enter, ReleaseSlot, Release;
      ghost var roles' := FindSlotInv(State(), roles);
      var i := FindFree();
      if i < 0 { return -1; }
      memory.SetOwner(i + 1);
      var l := SetUpRaw(raw, offset, roles');
      if l.NoTables? {
        memory.ReleaseUser(i + 1);
        return -1;
      }
      if l.Failed? { return -1; }
      slots[i] := Slot(true, Running, Some(l.root), l.entry);
      var st := EnterProgram(i, ws, outcome);
      if st != 0 {
        ReleaseProgram(i + 1);
        return -1;
      }
      id := i + 1;
    }

    /** `program_spawn_elf` */
    method SpawnImage(image: seq<byte>, ws: seq<Write>, outcome: Outcome, ghost roles: seq<Role>) returns (id: int)
      requires Valid() && Inv(State(), roles)
      modifies slots, memory, memory.ptPool, memory.dataPool, memory.ptOwner, memory.dataOwner
      ensures State() == SpawnElfProgram(old(State()), image, ws, outcome)
    {
      hide Inv, LoadNamed, Enter, ReleaseSlot;
      id := LoadFound(image, roles);
      if id < 0 { return -1; }
      slots[id - 1] := slots[id - 1].(status := Running);
      var st := EnterProgram(id - 1, ws, outcome);
      if st != 0 {
        ReleaseProgram(id);
        id := -1;
      }
    }

    /** `program_load_named` on an image that has been found. */
    method LoadFound(image: seq<byte>, ghost roles: seq<Role>) returns (id: int)
      requires Valid() && Inv(State(), roles)
      modifies slots, memory, memory.ptPool, memory.dataPool, memory.ptOwner, memory.dataOwner
      ensures (State(), id) == LoadNamed(old(State()), image)
    {
      hide Forest, LoadImage, FindSlot, SlotOk, Undisturbed;
      ghost var roles' := FindSlotInv(State(), roles);
      var i := FindFree();
      if i < 0 { return -1; }
      id := LoadInto(i, image, roles');
    }

    /** `program_run_background` */
    method StartBackground(image: seq<byte>, launched: bool, ghost roles: seq<Role>) returns (id: int)
      requires Valid() && Inv(State(), roles)
      modifies slots, memory, memory.ptPool, memory.dataPool, memory.ptOwner, memory.dataOwner
      ensures State() == RunInBackground(old(State()), image, launched)
    {
      hide Forest, LoadNamed, Inv;
      id := LoadFound(image, roles);
      if id < 0 { return -1; }
      if !launched {
        slots[id - 1] := slots[id - 1].(used := false);
        id := -1;
      }
    }
  }

  lemma {:induction false} FirstUnusedIs(slots: seq<Slot>, i: nat)
    requires i < |slots| && !slots[i].used && forall j :: 0 <= j < i ==> slots[j].used
    ensures FirstUnused(slots) == i
  {
    if i > 0 { FirstUnusedIs(slots[1..], i - 1); }
  }

  lemma {:induction false} NoneUnused(slots: seq<Slot>)
    requires forall j :: 0 <= j < |slots| ==> slots[j].used
    ensures FirstUnused(slots) == -1
  {
  }

  lemma {:induction false} FirstFinishedIs(slots: seq<Slot>, i: nat)
    requires i < |slots| && (slots[i].status.Exited? || slots[i].status.Faulted?)
    requires forall j :: 0 <= j < i ==> !slots[j].status.Exited? && !slots[j].status.Faulted?
    ensures FirstFinished(slots) == i
  {
    if i > 0 { FirstFinishedIs(slots[1..], i - 1); }
  }
}
