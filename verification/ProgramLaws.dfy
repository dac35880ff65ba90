/**
 What each operation on programs leaves behind: which slot a new program gets, when it is
 loaded, what its stores change in its memory, and how it ends.
 */
module ProgramLaws {
  import opened Common
  import opened PageTables
  import opened PageProofs
  import opened PoolProofs
  import opened Elf
  import opened MapLaws
  import opened ElfLaws
  import opened Programs

  // ---- slots ----

  predicate Finished(s: Slot) { s.status == Exited || s.status == Faulted }

  lemma {:induction false} FirstFinishedIs(slots: seq<Slot>)
    ensures var i := FirstFinished(slots); forall j :: 0 <= j < (if i < 0 then |slots| else i) ==> !Finished(slots[j])
  {
    if slots != [] { FirstFinishedIs(slots[1..]); }
  }

  lemma {:induction false} FirstUnusedIs(slots: seq<Slot>)
    ensures var i := FirstUnused(slots); forall j :: 0 <= j < (if i < 0 then |slots| else i) ==> slots[j].used
  {
    if slots != [] { FirstUnusedIs(slots[1..]); }
  }

  /** A new program gets the first slot not in use; when all four are, that of the first program
      that has ended, whose pages are freed; and none when all are idle or running. Every other
      slot is as it was. */
  lemma {:induction false} SlotChosen(sys: System)
    requires Shaped(sys)
    ensures var (s, i) := FindSlot(sys);
            && |sys.slots| == 4 && -1 <= i < 4
            && (i == -1 <==> forall j :: 0 <= j < 4 ==> sys.slots[j].used && !Finished(sys.slots[j]))
            && (i == -1 ==> s == sys)
            && (i >= 0 ==> !s.slots[i].used && s.pools.tables == sys.pools.tables && s.pools.data == sys.pools.data)
            && (forall j :: 0 <= j < 4 && j != i ==> s.slots[j] == sys.slots[j])
            && (i >= 0 && !sys.slots[i].used ==> s == sys && forall j :: 0 <= j < i ==> sys.slots[j].used)
            && (i >= 0 && sys.slots[i].used ==>
                  && (forall j :: 0 <= j < 4 ==> sys.slots[j].used) && Finished(sys.slots[i])
                  && (forall j :: 0 <= j < i ==> !Finished(sys.slots[j]))
                  && i + 1 !in s.pools.tableOwner && i + 1 !in s.pools.dataOwner)
  {
    hide FirstUnused, FirstFinished;
    FirstUnusedIs(sys.slots);
    FirstFinishedIs(sys.slots);
    var j := FirstFinished(sys.slots);
    if FirstUnused(sys.slots) < 0 && j >= 0 { ReleaseFrees(sys.pools, j + 1); }
  }

  /** Releasing works on the programs 1 to 4 that are in use: the slot is given up and every page
      of the program is free, those of others are as they were. Any other id changes nothing. */
  lemma {:induction false} Released(sys: System, id: int)
    requires Shaped(sys)
    ensures var r := ReleaseSlot(sys, id);
            if 1 <= id <= 4 && sys.slots[id - 1].used
            then && !r.slots[id - 1].used && r.slots[id - 1].tables == None && r.slots[id - 1].status == Idle
                 && id !in r.pools.tableOwner && id !in r.pools.dataOwner
                 && (forall j :: 0 <= j < 4 && j != id - 1 ==> r.slots[j] == sys.slots[j])
                 && r.pools.tables == sys.pools.tables && r.pools.data == sys.pools.data
                 && (forall t :: 0 <= t < 24 && sys.pools.tableOwner[t] != id ==> r.pools.tableOwner[t] == sys.pools.tableOwner[t])
                 && (forall d :: 0 <= d < 16 && sys.pools.dataOwner[d] != id ==> r.pools.dataOwner[d] == sys.pools.dataOwner[d])
            else r == sys
  {
    if 1 <= id <= 4 { ReleaseFrees(sys.pools, id); }
  }

  // ---- stores ----

  /** The byte of the data pool that a user address names, where there is one. */
  function Cell(p: Pools, root: nat, addr: nat): Option<(nat, nat)>
    requires Sized(p) && root < MAX_USER_PT
  {
    match Walk(p, root, PageOf(addr))
    case Mapped(DataFrame(d), rights) => if rights.user && d < 16 then Some((d, addr % 4096)) else None
    case _ => None
  }

  /** A store may go to a page that is user-visible and writable. */
  predicate MayWrite(p: Pools, root: nat, addr: nat)
    requires Sized(p) && root < MAX_USER_PT
  {
    match View(p, root, PageOf(addr))
    case Some(page) => page.write
    case None => false
  }

  lemma {:induction false} StoreTables(p: Pools, root: nat, w: Write)
    requires Sized(p) && root < MAX_USER_PT
    ensures var r := Store(p, root, w);
            && (r.Some? <==> MayWrite(p, root, w.addr))
            && (r.Some? ==> && r.value.tables == p.tables && r.value.tableOwner == p.tableOwner && r.value.dataOwner == p.dataOwner
                            && Cell(p, root, w.addr).Some?)
  {
    hide Walk;
  }

  lemma {:induction false} SameTablesCell(p: Pools, q: Pools, root: nat, addr: nat)
    requires Sized(p) && Sized(q) && root < MAX_USER_PT && q.tables == p.tables
    ensures Cell(q, root, addr) == Cell(p, root, addr) && MayWrite(q, root, addr) == MayWrite(p, root, addr)
  {
    hide PageOf;
  }

  /** A store puts its value at its address and at every other address of the same byte of
      memory, and changes nothing else. */
  lemma {:induction false} StoreReads(p: Pools, root: nat, w: Write, a: nat)
    requires Sized(p) && root < MAX_USER_PT && MayWrite(p, root, w.addr)
    ensures Store(p, root, w).Some?
    ensures UserByte(Store(p, root, w).value, root, a)
            == if Cell(p, root, a) == Cell(p, root, w.addr) then Some(w.value) else UserByte(p, root, a)
  {
    hide Walk, PageOf;
    var q := Store(p, root, w).value;
    SameWalk(p, q, root, PageOf(a));
  }

  lemma {:induction false} SameWalk(p: Pools, q: Pools, root: nat, g: nat)
    requires root < |p.tables| && q.tables == p.tables
    ensures Walk(q, root, g) == Walk(p, root, g)
  {
  }

  /** Stores that may all be done leave in each byte the last value written to it. */
  lemma {:induction false} LastStoreWins(p: Pools, root: nat, ws: seq<Write>, a: nat)
    requires Sized(p) && root < MAX_USER_PT && forall i :: 0 <= i < |ws| ==> MayWrite(p, root, ws[i].addr)
    ensures var q := Stores(p, root, ws);
            && q.tables == p.tables && q.tableOwner == p.tableOwner && q.dataOwner == p.dataOwner
            && ((forall i :: 0 <= i < |ws| ==> Cell(p, root, ws[i].addr) != Cell(p, root, a)) ==> UserByte(q, root, a) == UserByte(p, root, a))
            && forall i :: 0 <= i < |ws| && Cell(p, root, ws[i].addr) == Cell(p, root, a)
                           && (forall j :: i < j < |ws| ==> Cell(p, root, ws[j].addr) != Cell(p, root, a))
                           ==> UserByte(q, root, a) == Some(ws[i].value)
    decreases |ws|
  {
    hide Walk, PageOf, Store, Cell, MayWrite, UserByte;
    if ws != [] {
      assert MayWrite(p, root, ws[0].addr);
      StoreTables(p, root, ws[0]);
      StoreReads(p, root, ws[0], a);
      var u := Store(p, root, ws[0]).value;
      SameTablesCell(p, u, root, a);
      forall i | 0 <= i < |ws|
        ensures Cell(u, root, ws[i].addr) == Cell(p, root, ws[i].addr) && MayWrite(u, root, ws[i].addr) == MayWrite(p, root, ws[i].addr)
      {
        SameTablesCell(p, u, root, ws[i].addr);
      }
      var rest := ws[1..];
      forall i | 0 <= i < |rest| ensures MayWrite(u, root, rest[i].addr) { assert rest[i] == ws[i + 1]; }
      LastStoreWins(u, root, rest, a);
      StoresFirst(p, root, ws);
      LaterStores(p, u, root, ws, a);
    }
  }

  lemma {:induction false} StoresFirst(p: Pools, root: nat, ws: seq<Write>)
    requires Sized(p) && root < MAX_USER_PT && ws != [] && Store(p, root, ws[0]).Some?
    ensures Stores(p, root, ws) == Stores(Store(p, root, ws[0]).value, root, ws[1..])
  {
    hide Store;
  }

  lemma {:induction false} LaterStores(p: Pools, u: Pools, root: nat, ws: seq<Write>, a: nat)
    requires Sized(p) && Sized(u) && root < MAX_USER_PT && ws != []
    requires Cell(u, root, a) == Cell(p, root, a)
    requires forall i :: 0 <= i < |ws| ==> Cell(u, root, ws[i].addr) == Cell(p, root, ws[i].addr)
    requires UserByte(u, root, a) == if Cell(p, root, a) == Cell(p, root, ws[0].addr) then Some(ws[0].value) else UserByte(p, root, a)
    requires var q, rest := Stores(u, root, ws[1..]), ws[1..];
             && ((forall i :: 0 <= i < |rest| ==> Cell(u, root, rest[i].addr) != Cell(u, root, a)) ==> UserByte(q, root, a) == UserByte(u, root, a))
             && forall i :: 0 <= i < |rest| && Cell(u, root, rest[i].addr) == Cell(u, root, a)
                            && (forall j :: i < j < |rest| ==> Cell(u, root, rest[j].addr) != Cell(u, root, a))
                            ==> UserByte(q, root, a) == Some(rest[i].value)
    ensures var q := Stores(u, root, ws[1..]);
            && ((forall i :: 0 <= i < |ws| ==> Cell(p, root, ws[i].addr) != Cell(p, root, a)) ==> UserByte(q, root, a) == UserByte(p, root, a))
            && forall i :: 0 <= i < |ws| && Cell(p, root, ws[i].addr) == Cell(p, root, a)
                           && (forall j :: i < j < |ws| ==> Cell(p, root, ws[j].addr) != Cell(p, root, a))
                           ==> UserByte(q, root, a) == Some(ws[i].value)
  {
    hide Cell, UserByte, Stores;
    var q, rest := Stores(u, root, ws[1..]), ws[1..];
    forall i: nat | i < |rest| ensures rest[i] == ws[i + 1] {}
    if forall i :: 0 <= i < |ws| ==> Cell(p, root, ws[i].addr) != Cell(p, root, a) {
      assert Cell(p, root, ws[0].addr) != Cell(p, root, a);
      forall i | 0 <= i < |rest| ensures Cell(u, root, rest[i].addr) != Cell(u, root, a) { assert rest[i] == ws[i + 1]; }
    }
    forall i | 0 <= i < |ws| && Cell(p, root, ws[i].addr) == Cell(p, root, a)
               && (forall j :: i < j < |ws| ==> Cell(p, root, ws[j].addr) != Cell(p, root, a))
      ensures UserByte(q, root, a) == Some(ws[i].value)
    {
      forall j | i - 1 < j < |rest| && j >= 0 ensures Cell(u, root, rest[j].addr) != Cell(u, root, a) { assert rest[j] == ws[j + 1]; }
      if i > 0 { assert rest[i - 1] == ws[i]; }
    }
  }

  /** The first store that may not be done ends the stretch, and has no effect itself. */
  lemma {:induction false} RefusedStoreEnds(p: Pools, root: nat, ws: seq<Write>, i: nat)
    requires Sized(p) && root < MAX_USER_PT && i < |ws| && !MayWrite(p, root, ws[i].addr)
    requires forall j :: 0 <= j < i ==> MayWrite(p, root, ws[j].addr)
    ensures Stores(p, root, ws) == Stores(p, root, ws[..i])
    decreases i
  {
    hide Walk, PageOf, Store, MayWrite;
    StoreTables(p, root, ws[0]);
    if i > 0 {
      var u := Store(p, root, ws[0]).value;
      forall j | 0 <= j <= i ensures MayWrite(u, root, ws[j].addr) == MayWrite(p, root, ws[j].addr) { SameTablesCell(p, u, root, ws[j].addr); }
      forall j | 0 <= j < i - 1 ensures MayWrite(u, root, ws[1..][j].addr) { assert ws[1..][j] == ws[j + 1]; }
      RefusedStoreEnds(u, root, ws[1..], i - 1);
      StoresFirst(p, root, ws);
      StoresFirst(p, root, ws[..i]);
      assert ws[..i][1..] == ws[1..][..i - 1];
    }
  }

  // ---- running ----

  /** A program is entered when it has an address space. Preempted, it keeps its slot, and its
      memory with its stores; returning or faulting, it keeps the slot only, marked so, and all
      its pages are free. A fault is reported as -1. */
  lemma {:induction false} EnterEnds(sys: System, i: nat, ws: seq<Write>, outcome: Outcome)
    requires Shaped(sys) && i < 4 && sys.slots[i].tables.Some? && sys.slots[i].tables.value < 24
    ensures var (u, st) := Enter(sys, i, ws, outcome);
            && st == (if outcome == Fault then -1 else 0)
            && (forall j :: 0 <= j < 4 && j != i ==> u.slots[j] == sys.slots[j])
            && (outcome == Preempted ==> u.slots == sys.slots && u.pools == Stores(sys.pools, sys.slots[i].tables.value, ws))
            && (outcome != Preempted ==>
                  && u.slots[i] == sys.slots[i].(status := if outcome == Fault then Faulted else Exited, tables := None)
                  && i + 1 !in u.pools.tableOwner && i + 1 !in u.pools.dataOwner)
  {
    hide Stores;
    ReleaseFrees(Stores(sys.pools, sys.slots[i].tables.value, ws), i + 1);
  }

  /** Without an address space nothing is entered. */
  lemma {:induction false} EnterNothing(sys: System, i: nat, ws: seq<Write>, outcome: Outcome)
    requires Shaped(sys) && i < 4 && (sys.slots[i].tables.None? || sys.slots[i].tables.value >= 24)
    ensures Enter(sys, i, ws, outcome) == (sys, -1)
  {
  }

  /** `program_run` enters exactly the programs 1 to 4 that are in use and have not ended;
      otherwise it answers -1 and changes nothing. A program entered is running until it ends,
      and the answer is 0 unless it faults. */
  lemma {:induction false} RunIs(sys: System, roles: seq<Role>, id: int, ws: seq<Write>, outcome: Outcome)
    requires Inv(sys, roles)
    ensures Shaped(sys)
    ensures var (u, st) := RunProgram(sys, id, ws, outcome);
            var can := 1 <= id <= 4 && sys.slots[id - 1].used && !Finished(sys.slots[id - 1]);
            && (st == 0 <==> can && outcome != Fault) && (st == 0 || st == -1)
            && (!can ==> u == sys)
            && (can ==> && (forall j :: 0 <= j < 4 && j != id - 1 ==> u.slots[j] == sys.slots[j])
                        && u.slots[id - 1].used
                        && u.slots[id - 1].status == (match outcome case Preempted => Running case Returned => Exited case Fault => Faulted)
                        && u.slots[id - 1].entry == sys.slots[id - 1].entry
                        && (outcome == Preempted ==> u.slots[id - 1].tables == sys.slots[id - 1].tables && sys.slots[id - 1].tables.Some?
                                                     && sys.slots[id - 1].tables.value < MAX_USER_PT
                                                     && u.pools == Stores(sys.pools, sys.slots[id - 1].tables.value, ws))
                        && (outcome != Preempted ==> u.slots[id - 1].tables == None && id !in u.pools.tableOwner && id !in u.pools.dataOwner))
  {
    hide Forest, KernelMapped, Stores, Enter;
    InvShaped(sys, roles);
    if 1 <= id <= 4 && sys.slots[id - 1].used && !Finished(sys.slots[id - 1]) {
      assert SlotOk(sys, roles, id - 1);
      EnterEnds(sys.(slots := sys.slots[id - 1 := sys.slots[id - 1].(status := Running)]), id - 1, ws, outcome);
    }
  }

  // ---- loading ----

  /** The stack of a new program: 16 KB of zeros from 0x700000 on, writable and never run. */
  lemma {:induction false} StackIs(p: Pools, root: nat, segs: seq<Segment>, addr: nat)
    requires Shows(p, root, segs + [StackSegment()]) && 0x70_0000 <= addr < 0x70_4000
    ensures UserByte(p, root, addr) == Some(0) && MayWrite(p, root, addr)
    ensures View(p, root, PageOf(addr)).Some? && !View(p, root, PageOf(addr)).value.exec
  {
    hide View;
    var all := segs + [StackSegment()];
    assert all[|all| - 1] == StackSegment() && all[..|all| - 1] == segs;
    assert PageOf(0x70_0000) == 0x700 && 0x700 <= PageOf(addr) < 0x704;
    assert View(p, root, PageOf(addr)) == Overlay(all, PageOf(addr), None);
  }

  /** Below and above the stack a new program sees its own segments. */
  lemma {:induction false} BesideStack(p: Pools, root: nat, segs: seq<Segment>, addr: nat)
    requires Shows(p, root, segs + [StackSegment()]) && addr < 0x1_0000_0000_0000 && (addr < 0x70_0000 || addr >= 0x70_4000)
    ensures View(p, root, PageOf(addr)) == Overlay(segs, PageOf(addr), None)
  {
    hide View, Overlay;
    var all := segs + [StackSegment()];
    assert all[|all| - 1] == StackSegment() && all[..|all| - 1] == segs;
    assert PageOf(0x70_0000) == 0x700 && PageOf(addr) == addr / 4096;
    assert !Covers(StackSegment(), PageOf(addr));
    OverlayAppend(segs, [StackSegment()], PageOf(addr), None);
    OverlayOne(StackSegment(), PageOf(addr), Overlay(segs, PageOf(addr), None));
  }

  lemma {:induction false} OverlayOne(s: Segment, g: nat, under: Option<UserPage>)
    requires g < PAGES && !Covers(s, g)
    ensures Overlay([s], g, under) == under
  {
    assert [s][..0] == [];
    assert Overlay([], g, under) == under;
  }

  /** The stack fits a space with four data pages and a table free. */
  lemma {:induction false} StackFits(p: Pools, roles: seq<Role>, owner: int, root: nat, entry: nat)
    requires Forest(p, roles) && Grounded(p, root) && roles[root].Top? && p.tableOwner[root] == Tag(owner)
    requires FreeCount(p.dataOwner) >= 4 && FreeCount(p.tableOwner) >= 1
    ensures Sized(p) && root < MAX_USER_PT
    ensures AddStack(p, owner, root, entry).1 == Ready(root, entry)
  {
    hide Forest, Grounded, FreeCount, MapSegment, Tag;
    ForestSized(p, roles);
    GroundedSized(p, root);
    var s := StackSegment();
    assert PageOf(s.vaddr) == 0x700 && PageCount(s.memSize) == 4;
    SegmentFits(p, root, s);
    SegmentIff(p, roles, owner, root, s);
  }

  /** What a well-formed program needs: its pages and four for the stack; its leaf tables, three
      tables above them and one for the stack. */
  ghost predicate Roomy(p: Pools, parts: seq<Part>, entry: nat) {
    && Writable(parts, entry) && (forall i :: 0 <= i < |parts| && parts[i].Code? ==> Placeable(parts[i].s))
    && PagesNeeded(SegmentsOf(parts)) + 4 <= FreeCount(p.dataOwner)
    && TablesNeeded(SegmentsOf(parts)) + 4 <= FreeCount(p.tableOwner)
  }

  /** An address space is set up for every well-formed image for which there is room. */
  lemma {:induction false} SetsUp(p: Pools, roles: seq<Role>, owner: int, parts: seq<Part>, entry: nat, x: Extra)
    requires Forest(p, roles) && Roomy(p, parts, entry)
    ensures Sized(p)
    ensures var l := SetupElf(p, owner, Written(parts, entry, x)).1; l.Ready? && l.entry == entry
  {
    hide Forest, Grounded, FreeCount, CreateTables, ElfLoad, AddStack, Written, SegmentsOf, Writable, Placeable, KernelMapped, View, SameFor, Tag,
         KeepsRoots, PagesNeeded, TablesNeeded, HasLeaf, Segments;
    ForestSized(p, roles);
    CreateIff(p, roles, owner);
    ghost var roles1 := NewTree(p, roles, owner);
    var (q, r) := CreateTables(p, owner);
    var root := r.value;
    var image := Written(parts, entry, x);
    ImageLoads(q, roles1, owner, root, parts, entry, x);
    ghost var roles2 := LoadTree(p, roles, q, roles1, owner, root, image);
    var (u, e) := ElfLoad(q, owner, root, image);
    StackFits(u, roles2, owner, root, entry);
  }

  /** A well-formed image is loaded whenever a slot can be had and there is room: the program
      gets that slot, waits to be run from the image's entry, and sees the image's segments with
      its stack over them. */
  lemma {:induction false} ProgramLoads(sys: System, roles: seq<Role>, parts: seq<Part>, entry: nat, x: Extra)
    requires Inv(sys, roles) && FindSlot(sys).1 >= 0 && Roomy(FindSlot(sys).0.pools, parts, entry)
    ensures var (u, id) := LoadNamed(sys, Written(parts, entry, x));
            var i := FindSlot(sys).1;
            && Shaped(u) && id == i + 1
            && u.slots[i].used && u.slots[i].status == Idle && u.slots[i].entry == entry
            && u.slots[i].tables.Some? && Shows(u.pools, u.slots[i].tables.value, SegmentsOf(parts) + [StackSegment()])
            && forall j :: 0 <= j < 4 && j != i ==> u.slots[j] == sys.slots[j]
  {
    hide Forest, SetupElf, Written, SegmentsOf, Writable, Placeable, Shows, SlotOk, Roomy, Segments, FindSlot;
    ghost var roles1 := FindSlotInv(sys, roles);
    var (s, i) := FindSlot(sys);
    var image := Written(parts, entry, x);
    InvShaped(sys, roles);
    InvShaped(s, roles1);
    SlotChosen(sys);
    SetsUp(s.pools, roles1, i + 1, parts, entry, x);
    ghost var roles2 := LoadImageInv(s, roles1, i, image);
    RoomyWritable(s.pools, parts, entry);
    SegmentsRead(parts, entry, x);
  }

  lemma {:induction false} RoomyWritable(p: Pools, parts: seq<Part>, entry: nat)
    requires Roomy(p, parts, entry)
    ensures Writable(parts, entry)
  {
  }

  // ---- the other ways to start ----

  /** A raw program is code at 0x400000, entered at its offset; its pages and the stack's must be
      free, and the tables for both. */
  lemma {:induction false} RawLoads(p: Pools, roles: seq<Role>, owner: int, raw: seq<byte>, offset: nat) returns (roles': seq<Role>)
    requires Forest(p, roles) && |raw| <= 0x30_0000
    requires FreeCount(p.dataOwner) >= PageCount(|raw|) + 4 && FreeCount(p.tableOwner) >= 6
    ensures Sized(p)
    ensures var (q, l) := SetupRaw(p, owner, raw, offset);
            && l.Ready? && l.entry == 0x40_0000 + offset
            && Shows(q, l.root, [RxSegment(0x40_0000, raw), StackSegment()])
  {
    hide Forest, Grounded, FreeCount, CreateTables, MapSegment, AddStack, KernelMapped, View, SameFor, Tag, KeepsRoots, HasLeaf;
    ForestSized(p, roles);
    CreateIff(p, roles, owner);
    ghost var roles1 := NewTree(p, roles, owner);
    var (q, r) := CreateTables(p, owner);
    var root := r.value;
    var s := RxSegment(USER_CODE_VADDR, raw);
    assert PageOf(s.vaddr) == 0x400 && PageCount(s.memSize) <= 0x300;
    assert Placeable(s) && Leaves(s) <= 2;
    SegmentFits(q, root, s);
    SegmentIff(q, roles1, owner, root, s);
    ghost var roles2 := RawTree(p, roles, q, roles1, owner, root, raw);
    var (u, st) := MapSegment(q, owner, root, s);
    StackFits(u, roles2, owner, root, USER_CODE_VADDR + offset);
    roles' := SetupRawInv(p, roles, owner, raw, offset);
  }

  /** The memory of a raw program reads as its code. */
  lemma {:induction false} RawReads(p: Pools, root: nat, raw: seq<byte>, k: nat)
    requires Shows(p, root, [RxSegment(0x40_0000, raw), StackSegment()]) && k < |raw| <= 0x30_0000
    ensures UserByte(p, root, 0x40_0000 + k) == Some(raw[k]) && !MayWrite(p, root, 0x40_0000 + k)
    ensures View(p, root, PageOf(0x40_0000 + k)).Some? && View(p, root, PageOf(0x40_0000 + k)).value.exec
  {
    hide View, Overlay;
    var s, addr := RxSegment(0x40_0000, raw), 0x40_0000 + k;
    assert [s, StackSegment()] == [s] + [StackSegment()];
    BesideStack(p, root, [s], addr);
    assert PageOf(0x40_0000) == 0x400 && PageOf(addr) == 0x400 + k / 4096;
    assert Covers(s, PageOf(addr));
    OverlayCovered(s, PageOf(addr));
    assert k / 4096 * 4096 + addr % 4096 == k;
  }

  lemma {:induction false} OverlayCovered(s: Segment, g: nat)
    requires g < PAGES && Covers(s, g)
    ensures Overlay([s], g, None) == Some(UserPage(SegmentPage(s.bytes, Offset(PageOf(s.vaddr), g)), s.write, s.exec))
  {
  }

  /** A program started in the background that the scheduler refuses is no longer in use; nothing
      else is undone. */
  lemma {:induction false} BackgroundIs(sys: System, image: seq<byte>, launched: bool)
    requires Shaped(sys)
    ensures var (s, id) := LoadNamed(sys, image);
            var u := RunInBackground(sys, image, launched);
            && u.pools == s.pools
            && (forall j :: 0 <= j < 4 && j != id - 1 ==> u.slots[j] == s.slots[j])
            && (id > 0 ==> u.slots[id - 1] == s.slots[id - 1].(used := s.slots[id - 1].used && launched))
  {
    hide LoadNamed;
  }

  /** A program spawned from an image that loads runs at once: preempted it stays running,
      returning it has exited, and after a fault its slot and pages are given up. */
  lemma {:induction false} SpawnElfIs(sys: System, roles: seq<Role>, image: seq<byte>, ws: seq<Write>, outcome: Outcome)
    requires Inv(sys, roles)
    ensures Shaped(sys)
    ensures var (s, id) := LoadNamed(sys, image);
            var u := SpawnElfProgram(sys, image, ws, outcome);
            && (id < 0 ==> u == s)
            && (id > 0 ==> && (forall j :: 0 <= j < 4 && j != id - 1 ==> u.slots[j] == s.slots[j])
                           && s.slots[id - 1].tables.Some? && s.slots[id - 1].tables.value < MAX_USER_PT
                           && u.slots[id - 1].used == (outcome != Fault)
                           && (outcome == Preempted ==> u.slots[id - 1] == s.slots[id - 1].(status := Running)
                                                        && u.pools == Stores(s.pools, s.slots[id - 1].tables.value, ws))
                           && (outcome == Returned ==> u.slots[id - 1].status == Exited)
                           && (outcome != Preempted ==> u.slots[id - 1].tables == None && id !in u.pools.tableOwner && id !in u.pools.dataOwner))
  {
    hide Forest, KernelMapped, Stores, Enter, LoadNamed, ReleaseSlot;
    InvShaped(sys, roles);
    ghost var roles1 := LoadNamedInv(sys, roles, image);
    var (s, id) := LoadNamed(sys, image);
    if id > 0 {
      LoadedSlot(sys, roles, image);
      var t := s.(slots := s.slots[id - 1 := s.slots[id - 1].(status := Running)]);
      EnterEnds(t, id - 1, ws, outcome);
      Released(Enter(t, id - 1, ws, outcome).0, id);
    }
  }

  lemma {:induction false} LoadedSlot(sys: System, roles: seq<Role>, image: seq<byte>)
    requires Inv(sys, roles) && LoadNamed(sys, image).1 > 0
    ensures Shaped(sys)
    ensures var (s, id) := LoadNamed(sys, image);
            s.slots[id - 1].used && s.slots[id - 1].tables.Some? && s.slots[id - 1].tables.value < MAX_USER_PT
  {
    hide Forest, KernelMapped, SetupElf, Shows, SlotOk, FindSlot;
    ghost var roles1 := FindSlotInv(sys, roles);
    var (s, i) := FindSlot(sys);
    ghost var roles2 := LoadImageInv(s, roles1, i, image);
  }

  /** The same for a raw program, once a slot is had and its memory set up. What a failed mapping
      took stays tagged; where not even tables could be had, they are given back. */
  lemma {:induction false} SpawnRawIs(sys: System, raw: seq<byte>, offset: nat, ws: seq<Write>, outcome: Outcome)
    requires Shaped(sys) && FindSlot(sys).1 >= 0
    ensures var (s, i) := FindSlot(sys);
            var (q, l) := SetupRaw(s.pools, i + 1, raw, offset);
            var u := SpawnProgram(sys, raw, offset, ws, outcome);
            && (forall j :: 0 <= j < 4 && j != i ==> u.slots[j] == sys.slots[j])
            && (!l.Ready? ==> u.slots == s.slots)
            && (l == Failed ==> u.pools == q)
            && (l == NoTables ==> i + 1 !in u.pools.tableOwner && i + 1 !in u.pools.dataOwner)
            && (l.Ready? ==> && u.slots[i].used == (outcome != Fault)
                             && (outcome == Preempted ==> u.slots[i] == Slot(true, Running, Some(l.root), l.entry) && u.pools == Stores(q, l.root, ws))
                             && (outcome == Returned ==> u.slots[i].status == Exited)
                             && (outcome != Preempted ==> u.slots[i].tables == None && i + 1 !in u.pools.tableOwner && i + 1 !in u.pools.dataOwner))
  {
    hide Stores, Enter, SetupRaw, ReleaseSlot, FindSlot;
    SlotChosen(sys);
    var (s, i) := FindSlot(sys);
    var (q, l) := SetupRaw(s.pools, i + 1, raw, offset);
    match l
    case NoTables => ReleaseFrees(q, i + 1);
    case Failed =>
    case Ready(root, entry) =>
      var t := System(q, s.slots[i := Slot(true, Running, Some(root), entry)]);
      EnterEnds(t, i, ws, outcome);
      Released(Enter(t, i, ws, outcome).0, i + 1);
  }

  /** At the start no slot is in use and all 24 table pages and 16 data pages are free. */
  lemma {:induction false} BootFree()
    ensures |Boot().slots| == 4 && forall i :: 0 <= i < 4 ==> Boot().slots[i] == Slot(false, Idle, None, 0)
    ensures FreeCount(Boot().pools.tableOwner) == 24 && FreeCount(Boot().pools.dataOwner) == 16
  {
    hide ZeroTable, ZeroPage, FreeCount;
    AllFree(seq(24, _ => 0));
    AllFree(seq(16, _ => 0));
    assert Boot().pools.tableOwner == seq(24, _ => 0) && Boot().pools.dataOwner == seq(16, _ => 0);
  }

  lemma {:induction false} AllFree(owners: seq<int>)
    requires forall i :: 0 <= i < |owners| ==> owners[i] == 0
    ensures FreeCount(owners) == |owners|
  {
    if owners != [] { AllFree(owners[1..]); }
  }
}
