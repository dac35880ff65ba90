/**
 When the memory manager says yes: exactly which mapping calls succeed, told by counts of
 free pages and by the tables that are still missing.
 */
module MapLaws {
  import opened Common
  import opened PageTables
  import opened PageProofs
  import opened PoolProofs
  import opened Elf

  const GB_PAGES: nat := 0x4_0000  // pages in the first GB

  lemma {:induction false} FreeIff(owners: seq<int>)
    ensures FirstFree(owners) < |owners| <==> FreeCount(owners) > 0
  {
    if owners != [] && owners[0] != 0 { FreeIff(owners[1..]); }
  }

  // ---- one page ----

  /** There is a leaf table for the page. */
  predicate HasLeaf(p: Pools, root: nat, page: nat)
    requires root < |p.tables|
  {
    Route(p, root, page, 3).Some?
  }

  /** The entry of the page directory that a page falls under. */
  function DirectoryEntry(p: Pools, root: nat, page: nat): Pte
    requires root < |p.tables| && Route(p, root, page, 2).Some?
  {
    Entry(p, Route(p, root, page, 2).value, Index(page, 2))
  }

  /** What `map_pt_flags` answers, in any forest. */
  lemma {:induction false} MapPtStatus(p: Pools, roles: seq<Role>, owner: int, root: nat, page: nat, frame: Frame, write: bool, nx: bool)
    requires Forest(p, roles) && root < MAX_USER_PT && roles[root].Top?
    ensures var s := MapPt(p, owner, root, page, frame, write, nx).1;
            && (s == 0 <==> Route(p, root, page, 2).Some? && !DirectoryEntry(p, root, page).huge
                            && (DirectoryEntry(p, root, page).present || FreeCount(p.tableOwner) > 0))
            && (s == -2 <==> Route(p, root, page, 2).Some? && DirectoryEntry(p, root, page).huge)
            && (s == 0 || s == -1 || s == -2)
            && (Route(p, root, page, 2).Some? ==>
                  (HasLeaf(p, root, page) <==> DirectoryEntry(p, root, page).present && !DirectoryEntry(p, root, page).huge))
            && (Route(p, root, page, 2).None? ==> !HasLeaf(p, root, page))
  {
    hide Forest, Walk, FreeCount, FirstFree;
    ForestSized(p, roles);
    FreeIff(p.tableOwner);
    WalkShape(p, roles, root, page);
    LastStep(p, root, page);
  }

  lemma {:induction false} LastStep(p: Pools, root: nat, page: nat)
    requires root < |p.tables|
    ensures Route(p, root, page, 3) == if Route(p, root, page, 2).None? then None else Child(p, DirectoryEntry(p, root, page))
  {
  }

  /** An address space as it is built: directories for the first GB and no more, and 2 MB
      entries for the first 4 MB and no more. */
  ghost predicate Grounded(p: Pools, root: nat) {
    Sized(p) && root < MAX_USER_PT && forall page :: 0 <= page < PAGES ==> GroundedAt(p, root, page)
  }

  predicate GroundedAt(p: Pools, root: nat, page: nat)
    requires root < |p.tables|
  {
    && (Route(p, root, page, 2).Some? <==> page < GB_PAGES)
    && (page < GB_PAGES ==> (DirectoryEntry(p, root, page).huge <==> page < KERNEL_PAGES))
  }

  /** Two pages fall under one leaf table. */
  predicate SameLeaf(g: nat, page: nat) { g / 512 == page / 512 }

  lemma {:induction false} SameLeafIs(g: nat, page: nat)
    requires g < PAGES && page < PAGES
    ensures SameLeaf(g, page) <==> Index(g, 4) == Index(page, 4) && Index(g, 3) == Index(page, 3) && Index(g, 2) == Index(page, 2)
  {
    hide Index;
    Halve(g);
    Halve(page);
  }

  /** One page of such an address space: behind the 4 MB and within the GB it is mapped as
      long as its leaf table exists or a table is free, and then the table is there. */
  lemma {:induction false} MapPtGrounded(p: Pools, roles: seq<Role>, owner: int, root: nat, page: nat, frame: Frame, write: bool, nx: bool)
    requires Forest(p, roles) && Grounded(p, root) && roles[root].Top? && page < PAGES
    ensures var (q, s) := MapPt(p, owner, root, page, frame, write, nx);
            && (s == 0 <==> KERNEL_PAGES <= page < GB_PAGES && (HasLeaf(p, root, page) || FreeCount(p.tableOwner) > 0))
            && Grounded(q, root)
            && FreeCount(q.tableOwner) == FreeCount(p.tableOwner) - (if s == 0 && !HasLeaf(p, root, page) then 1 else 0)
            && forall g :: 0 <= g < PAGES ==> (HasLeaf(q, root, g) <==> HasLeaf(p, root, g) || (s == 0 && SameLeaf(g, page)))
  {
    hide Forest, MapPt, Route, HasLeaf, SameLeaf, FreeCount, FirstFree, Index, GroundedAt;
    ForestSized(p, roles);
    MapPtStatus(p, roles, owner, root, page, frame, write, nx);
    MapPtEffect(p, roles, owner, root, page, frame, write, nx);
    var (q, s) := MapPt(p, owner, root, page, frame, write, nx);
    PageGrounded(p, root, page);
    if s == 0 {
      if !HasLeaf(p, root, page) { FreeIff(p.tableOwner); FreeCountTaken(p.tableOwner, Tag(owner)); }
      forall g | 0 <= g < PAGES
        ensures GroundedAt(q, root, g) && (HasLeaf(q, root, g) <==> HasLeaf(p, root, g) || SameLeaf(g, page))
      {
        LeafAfter(p, q, roles, owner, root, page, frame, write, nx, g);
      }
    }
  }

  lemma {:induction false} GroundedSized(p: Pools, root: nat)
    requires Grounded(p, root)
    ensures Sized(p) && root < MAX_USER_PT
  {
  }

  lemma {:induction false} PageGrounded(p: Pools, root: nat, page: nat)
    requires Grounded(p, root) && page < PAGES
    ensures Route(p, root, page, 2).Some? <==> page < GB_PAGES
    ensures page < GB_PAGES ==> (DirectoryEntry(p, root, page).huge <==> page < KERNEL_PAGES)
  {
    hide Route;
    assert GroundedAt(p, root, page);
  }

  lemma {:induction false} LeafAfter(p: Pools, q: Pools, roles: seq<Role>, owner: int, root: nat, page: nat, frame: Frame, write: bool, nx: bool, g: nat)
    requires Forest(p, roles) && Grounded(p, root) && roles[root].Top? && page < PAGES && g < PAGES
    requires MapPt(p, owner, root, page, frame, write, nx) == (q, 0)
    ensures GroundedAt(q, root, g) && (HasLeaf(q, root, g) <==> HasLeaf(p, root, g) || SameLeaf(g, page))
  {
    hide Forest, MapPt, Route, SameLeaf, Index, FirstFree;
    ForestSized(p, roles);
    MapPtEffect(p, roles, owner, root, page, frame, write, nx);
    PageGrounded(p, root, g);
    RouteSame(p, q, roles, root, g, 2);
    LastStep(p, root, g);
    LastStep(q, root, g);
    if Route(p, root, g, 2).Some? {
      var pd := Route(p, root, page, 2).value;
      RouteLevel(p, roles, root, g, 2);
      SameLeafIs(g, page);
      if Route(p, root, g, 2) == Some(pd) { RouteUnique(p, roles, root, page, root, g, 2); }
      SameDirectory(p, root, g, page);
    } else {
      OutsideLeaf(p, roles, owner, root, page, frame, write, nx, g);
    }
  }

  /** Pages with equal upper indices share a directory. */
  lemma {:induction false} SameDirectory(p: Pools, root: nat, g: nat, page: nat)
    requires root < |p.tables|
    ensures Index(g, 4) == Index(page, 4) && Index(g, 3) == Index(page, 3) ==> Route(p, root, g, 2) == Route(p, root, page, 2)
  {
    hide Index;
    assert Route(p, root, g, 0) == Route(p, root, page, 0);
    if Index(g, 4) == Index(page, 4) { assert Route(p, root, g, 1) == Route(p, root, page, 1); }
  }

  lemma {:induction false} OutsideLeaf(p: Pools, roles: seq<Role>, owner: int, root: nat, page: nat, frame: Frame, write: bool, nx: bool, g: nat)
    requires Forest(p, roles) && Grounded(p, root) && roles[root].Top? && page < PAGES && g < PAGES
    requires MapPt(p, owner, root, page, frame, write, nx).1 == 0 && Route(p, root, g, 2).None?
    ensures !SameLeaf(g, page)
  {
    hide Forest, MapPt, Route, Index;
    MapPtEffect(p, roles, owner, root, page, frame, write, nx);
    PageGrounded(p, root, g);
    PageGrounded(p, root, page);
    assert page < GB_PAGES <= g;
  }

  // ---- a run of pages ----

  /** Tables that have to be taken to map the pages q .. q+n-1 of a run that began at
      `start`: one for each leaf that is entered and is not there. */
  function Missing(p: Pools, root: nat, start: nat, q: nat, n: nat): (m: nat)
    requires root < |p.tables|
    decreases n
  {
    if n == 0 then 0
    else (if (q == start || q % 512 == 0) && !HasLeaf(p, root, q) then 1 else 0) + Missing(p, root, start, q + 1, n - 1)
  }

  function NewTables(p: Pools, root: nat, page: nat, n: nat): nat
    requires root < |p.tables|
  {
    Missing(p, root, page, page, n)
  }

  lemma {:induction false} MissingAfter(p: Pools, u: Pools, root: nat, page: nat, q: nat, n: nat)
    requires root < |p.tables| && root < |u.tables| && page < q && q + n <= PAGES
    requires forall g :: 0 <= g < PAGES ==> (HasLeaf(u, root, g) <==> HasLeaf(p, root, g) || SameLeaf(g, page))
    ensures Missing(u, root, page + 1, q, n) == Missing(p, root, page, q, n)
    decreases n
  {
    hide HasLeaf;
    if n > 0 {
      MissingAfter(p, u, root, page, q + 1, n - 1);
      NextLeaf(page, q);
    }
  }

  lemma {:induction false} NextLeaf(page: nat, q: nat)
    requires page < q
    ensures q % 512 == 0 ==> !SameLeaf(q, page)
    ensures q == page + 1 && q % 512 != 0 ==> SameLeaf(q, page)
  {
  }

  lemma {:induction false} MissingTables(p: Pools, q: Pools, root: nat, start: nat, g: nat, n: nat)
    requires q.tables == p.tables && root < |p.tables|
    ensures Missing(q, root, start, g, n) == Missing(p, root, start, g, n)
    decreases n
  {
    hide Route;
    if n > 0 {
      RouteTables(p, q, root, g, 3);
      MissingTables(p, q, root, start, g + 1, n - 1);
    }
  }

  lemma {:induction false} SameTablesGrounded(p: Pools, q: Pools, root: nat)
    requires Grounded(p, root) && Sized(q) && q.tables == p.tables
    ensures Grounded(q, root)
    ensures forall g :: 0 <= g < PAGES ==> HasLeaf(q, root, g) == HasLeaf(p, root, g)
  {
    hide Route;
    forall g | 0 <= g < PAGES ensures GroundedAt(q, root, g) && HasLeaf(q, root, g) == HasLeaf(p, root, g) {
      PageGrounded(p, root, g);
      RouteTables(p, q, root, g, 2);
      RouteTables(p, q, root, g, 3);
    }
  }

  /** What it takes to map n pages from `page` on. */
  ghost predicate RoomFor(p: Pools, root: nat, page: nat, n: nat)
    requires root < |p.tables|
  {
    n == 0 || (&& KERNEL_PAGES <= page && page + n <= GB_PAGES
               && n <= FreeCount(p.dataOwner) && NewTables(p, root, page, n) <= FreeCount(p.tableOwner))
  }

  lemma {:induction false} TagNotFree(owner: int)
    ensures Tag(owner) != 0
  {
  }

  /** The mapping loop succeeds if and only if there is room. */
  lemma {:induction false} MapPagesIff(p: Pools, roles: seq<Role>, owner: int, root: nat, page: nat, contents: seq<Page>, write: bool, nx: bool)
    requires Forest(p, roles) && Grounded(p, root) && roles[root].Top? && p.tableOwner[root] == Tag(owner) && page < PAGES && (write ==> nx)
    ensures var (q, s) := MapPages(p, owner, root, page, contents, write, nx);
            && (s == 0 <==> RoomFor(p, root, page, |contents|)) && (s == 0 || s == -1)
            && Grounded(q, root)
            && (s == 0 ==> FreeCount(q.dataOwner) == FreeCount(p.dataOwner) - |contents|
                           && FreeCount(q.tableOwner) == FreeCount(p.tableOwner) - NewTables(p, root, page, |contents|))
    decreases |contents|
  {
    hide Forest, MapPt, Route, HasLeaf, SameLeaf, Grounded, Missing, FreeCount, MapRoles, Tag, FirstFree;
    ForestSized(p, roles);
    TagNotFree(owner);
    FreeIff(p.dataOwner);
    GroundedSized(p, root);
    MissingNone(p, root, page);
    if contents != [] {
      MissingFirst(p, root, page, |contents|);
      if AllocData(p, owner, contents[0]).Some? {
        var (p1, d) := AllocData(p, owner, contents[0]).value;
        AllocDataForest(p, roles, owner, contents[0]);
        SameTablesGrounded(p, p1, root);
        FreeCountTaken(p.dataOwner, Tag(owner));
        MapPagesStep(p, owner, root, page, contents, write, nx);
        MapPtGrounded(p1, roles, owner, root, page, DataFrame(d), write, nx);
        var (p2, s) := MapPt(p1, owner, root, page, DataFrame(d), write, nx);
        MapPtData(p1, owner, root, page, DataFrame(d), write, nx);
        if s == 0 {
          MapPtForest(p1, roles, owner, root, page, DataFrame(d), write, nx);
          MapKeepsRoots(p1, roles, owner, root, page, DataFrame(d), write, nx);
          assert (page + 1) % PAGES == page + 1;
          MapPagesIff(p2, MapRoles(p1, roles, root, page), owner, root, page + 1, contents[1..], write, nx);
          if page + |contents| <= PAGES {
            LeavesAgree(p, p1, p2, root, page);
            MissingAfter(p, p2, root, page, page + 1, |contents| - 1);
          }
          MissingNone(p2, root, page + 1);
          NoneMissing(p, root, page, page + 1);
          RoomStep(p, p2, root, page, |contents|);
        }
      }
    }
  }

  lemma {:induction false} LeavesAgree(p: Pools, p1: Pools, p2: Pools, root: nat, page: nat)
    requires root < |p.tables| && root < |p1.tables| && root < |p2.tables|
    requires forall g :: 0 <= g < PAGES ==> HasLeaf(p1, root, g) == HasLeaf(p, root, g)
    requires forall g :: 0 <= g < PAGES ==> (HasLeaf(p2, root, g) <==> HasLeaf(p1, root, g) || SameLeaf(g, page))
    ensures forall g :: 0 <= g < PAGES ==> (HasLeaf(p2, root, g) <==> HasLeaf(p, root, g) || SameLeaf(g, page))
  {
    hide HasLeaf, SameLeaf;
  }

  lemma {:induction false} MissingNone(p: Pools, root: nat, page: nat)
    requires root < |p.tables|
    ensures NewTables(p, root, page, 0) == 0
  {
  }

  lemma {:induction false} NoneMissing(p: Pools, root: nat, start: nat, q: nat)
    requires root < |p.tables|
    ensures Missing(p, root, start, q, 0) == 0
  {
  }

  lemma {:induction false} MissingFirst(p: Pools, root: nat, page: nat, n: nat)
    requires root < |p.tables| && n > 0
    ensures NewTables(p, root, page, n) == (if HasLeaf(p, root, page) then 0 else 1) + Missing(p, root, page, page + 1, n - 1)
  {
  }

  /** Room for n pages is room for one and then for the rest. */
  lemma {:induction false} RoomStep(p: Pools, u: Pools, root: nat, page: nat, n: nat)
    requires root < |p.tables| && root < |u.tables| && n > 0 && KERNEL_PAGES <= page < GB_PAGES
    requires FreeCount(p.dataOwner) > 0 && FreeCount(u.dataOwner) == FreeCount(p.dataOwner) - 1
    requires FreeCount(u.tableOwner) == FreeCount(p.tableOwner) - (if HasLeaf(p, root, page) then 0 else 1)
    requires NewTables(p, root, page, n) == (if HasLeaf(p, root, page) then 0 else 1) + Missing(p, root, page, page + 1, n - 1)
    requires page + n <= PAGES ==> Missing(u, root, page + 1, page + 1, n - 1) == Missing(p, root, page, page + 1, n - 1)
    requires n == 1 ==> Missing(p, root, page, page + 1, n - 1) == 0
    ensures RoomFor(p, root, page, n) <==> RoomFor(u, root, page + 1, n - 1)
  {
    hide HasLeaf, Missing, FreeCount;
  }

  /** Pages for a size: as few as hold it. */
  lemma {:induction false} PageCountLeast(size: nat)
    ensures size <= PageCount(size) * PAGE < size + PAGE
  {
  }

  /** A segment is mapped if and only if it is no smaller than its bytes, not both writable
      and executable, and there is room for its pages. */
  lemma {:induction false} SegmentIff(p: Pools, roles: seq<Role>, owner: int, root: nat, s: Segment)
    requires Forest(p, roles) && Grounded(p, root) && roles[root].Top? && p.tableOwner[root] == Tag(owner)
    ensures var (q, st) := MapSegment(p, owner, root, s);
            && (st == 0 <==> !(s.write && s.exec) && |s.bytes| <= s.memSize && RoomFor(p, root, PageOf(s.vaddr), PageCount(s.memSize)))
            && (st == 0 || st == -1)
            && Grounded(q, root)
            && (st == 0 ==> FreeCount(q.dataOwner) == FreeCount(p.dataOwner) - PageCount(s.memSize)
                            && FreeCount(q.tableOwner) == FreeCount(p.tableOwner) - NewTables(p, root, PageOf(s.vaddr), PageCount(s.memSize)))
  {
    hide Forest, Grounded, MapPages, PageCount, RoomFor, NewTables, FreeCount;
    ForestSized(p, roles);
    if !(s.write && s.exec) && |s.bytes| <= s.memSize {
      MapPagesIff(p, roles, owner, root, PageOf(s.vaddr), SegmentPages(s), s.write, !s.exec);
    }
  }

  // ---- a new address space ----

  /** An address space is built if and only if three tables are free; it is grounded, has
      no leaf tables yet, and what failed has used up the tables there were. */
  lemma {:induction false} CreateIff(p: Pools, roles: seq<Role>, owner: int)
    requires Forest(p, roles)
    ensures var (q, r) := CreateTables(p, owner);
            && (r.Some? <==> FreeCount(p.tableOwner) >= 3)
            && FreeCount(q.tableOwner) == (if r.Some? then FreeCount(p.tableOwner) - 3 else 0)
            && q.dataOwner == p.dataOwner
            && (r.Some? ==> Grounded(q, r.value) && forall g :: 0 <= g < PAGES ==> !HasLeaf(q, r.value, g))
  {
    hide Forest, AllocTable, FreeCount, Grounded, HasLeaf, Tag, SetEntry;
    ForestSized(p, roles);
    AllocTableCount(p, owner);
    if AllocTable(p, owner).Some? {
      var (p1, a) := AllocTable(p, owner).value;
      AllocTableCount(p1, owner);
      if AllocTable(p1, owner).Some? {
        var (p2, b) := AllocTable(p1, owner).value;
        AllocTableCount(p2, owner);
        if AllocTable(p2, owner).Some? {
          var (p3, c) := AllocTable(p2, owner).value;
          ThreeTables(p, owner);
          LinkGrounded(p3, a, b, c);
          LinkCounts(p3, a, b, c);
        }
      }
    }
  }

  lemma {:induction false} AllocTableCount(p: Pools, owner: int)
    requires Sized(p)
    ensures AllocTable(p, owner).Some? <==> FreeCount(p.tableOwner) > 0
    ensures AllocTable(p, owner).Some? ==>
              FreeCount(AllocTable(p, owner).value.0.tableOwner) == FreeCount(p.tableOwner) - 1
              && AllocTable(p, owner).value.0.dataOwner == p.dataOwner
  {
    hide FreeCount;
    FreeIff(p.tableOwner);
    if FirstFree(p.tableOwner) < |p.tableOwner| { FreeCountTaken(p.tableOwner, Tag(owner)); }
  }

  /** Three tables taken one after another are three different ones, all empty. */
  lemma {:induction false} ThreeTables(p: Pools, owner: int)
    requires Sized(p) && AllocTable(p, owner).Some?
    requires AllocTable(AllocTable(p, owner).value.0, owner).Some?
    requires AllocTable(AllocTable(AllocTable(p, owner).value.0, owner).value.0, owner).Some?
    ensures var (p1, a) := AllocTable(p, owner).value;
            var (p2, b) := AllocTable(p1, owner).value;
            var (p3, c) := AllocTable(p2, owner).value;
            && a != b && b != c && a != c && p3.tables[a] == p3.tables[b] == p3.tables[c] == ZeroTable()
  {
    hide ZeroTable;
  }

  lemma {:induction false} LinkCounts(p: Pools, pml4: nat, pdpt: nat, pd: nat)
    requires Sized(p) && pml4 < MAX_USER_PT && pdpt < MAX_USER_PT && pd < MAX_USER_PT
    ensures LinkNew(p, pml4, pdpt, pd).tableOwner == p.tableOwner && LinkNew(p, pml4, pdpt, pd).dataOwner == p.dataOwner
  {
  }

  lemma {:induction false} LinkGrounded(p: Pools, pml4: nat, pdpt: nat, pd: nat)
    requires Sized(p) && pml4 < MAX_USER_PT && pdpt < MAX_USER_PT && pd < MAX_USER_PT
    requires pml4 != pdpt && pdpt != pd && pml4 != pd
    requires p.tables[pml4] == p.tables[pdpt] == p.tables[pd] == ZeroTable()
    ensures var q := LinkNew(p, pml4, pdpt, pd);
            Grounded(q, pml4) && forall g :: 0 <= g < PAGES ==> !HasLeaf(q, pml4, g)
  {
    hide LinkNew, GroundedAt, HasLeaf;
    var q := LinkNew(p, pml4, pdpt, pd);
    forall g | 0 <= g < PAGES ensures GroundedAt(q, pml4, g) && !HasLeaf(q, pml4, g) {
      LinkGroundedAt(p, pml4, pdpt, pd, g);
    }
  }

  lemma {:induction false} LinkGroundedAt(p: Pools, pml4: nat, pdpt: nat, pd: nat, page: nat)
    requires Sized(p) && pml4 < MAX_USER_PT && pdpt < MAX_USER_PT && pd < MAX_USER_PT && page < PAGES
    requires pml4 != pdpt && pdpt != pd && pml4 != pd
    requires p.tables[pml4] == p.tables[pdpt] == p.tables[pd] == ZeroTable()
    ensures var q := LinkNew(p, pml4, pdpt, pd); GroundedAt(q, pml4, page) && !HasLeaf(q, pml4, page)
  {
    hide Index;
    var q := LinkNew(p, pml4, pdpt, pd);
    Halve(page);
    assert Route(q, pml4, page, 0) == Some(pml4);
    assert Route(q, pml4, page, 1) == if Index(page, 4) == 0 then Some(pdpt) else None;
    assert Route(q, pml4, page, 2) == if Index(page, 4) == 0 && Index(page, 3) == 0 then Some(pd) else None;
    LastStep(q, pml4, page);
  }

  /** In a new address space every page of the first GB behind the 4 MB can be mapped while
      a table is free, and no other page ever can. */
  lemma {:induction false} NewSpaceMaps(p: Pools, roles: seq<Role>, owner: int, page: nat, d: nat, write: bool, nx: bool)
    requires Forest(p, roles) && CreateTables(p, owner).1.Some? && page < PAGES
    ensures var (q, root) := CreateTables(p, owner);
            MapPt(q, owner, root.value, page, DataFrame(d), write, nx).1 == 0
            <==> KERNEL_PAGES <= page < GB_PAGES && FreeCount(p.tableOwner) > 3
  {
    hide Forest, CreateTables, MapPt, HasLeaf, Grounded, FreeCount;
    CreateIff(p, roles, owner);
    var roles' := CreateView(p, roles, owner);
    var q, root := CreateTables(p, owner).0, CreateTables(p, owner).1.value;
    MapPtGrounded(q, roles', owner, root, page, DataFrame(d), write, nx);
  }

  /** The entry a mapping writes: present, for the user, with the frame and rights asked for, and
      bit 7, which says large page higher up, clear; a table it had to take is entered as present,
      writable and the user's, so that the leaf alone restricts. */
  lemma {:induction false} EntryIs(p: Pools, roles: seq<Role>, owner: int, root: nat, page: nat, frame: Frame, write: bool, nx: bool)
    requires Forest(p, roles) && root < MAX_USER_PT && roles[root].Top? && MapPt(p, owner, root, page, frame, write, nx).1 == 0
    ensures var q := MapPt(p, owner, root, page, frame, write, nx).0;
            && Sized(q)
            && (exists t :: 0 <= t < 24 && q.tables[t][page % 512] == Pte(frame, true, write, true, false, nx)
                            && forall u :: 0 <= u < 24 && u != t && p.tableOwner[u] != 0 ==>
                                 forall i :: 0 <= i < 512 ==>
                                   q.tables[u][i] == p.tables[u][i] || (!p.tables[u][i].present && q.tables[u][i] == Pte(TableFrame(t), true, true, true, false, false)))
  {
    hide Forest, Route, FirstFree;
    ForestSized(p, roles);
    var pd := Route(p, root, page, 2).value;
    var e := Entry(p, pd, Index(page, 2));
    var q := MapPt(p, owner, root, page, frame, write, nx).0;
    assert Index(page, 1) == page % 512;
    if e.present {
      var t := Child(p, e).value;
      assert q.tables[t][page % 512] == Pte(frame, true, write, true, false, nx);
    } else {
      var t := AllocTable(p, owner).value.1;
      assert q.tables[t][page % 512] == Pte(frame, true, write, true, false, nx);
    }
  }

  /** What a page is tagged with: its owner, or -1 for nobody. */
  lemma {:induction false} TagIs(owner: int)
    ensures Tag(owner) == if owner == 0 then -1 else owner
  {
  }

  /** A table page is taken exactly when one is free: the first one, which is then its taker's and
      holds 512 entries that lead nowhere. */
  lemma {:induction false} TableTaken(p: Pools, owner: int)
    requires Sized(p)
    ensures var r := AllocTable(p, owner);
            && (r == None <==> forall t :: 0 <= t < 24 ==> p.tableOwner[t] != 0)
            && (r.Some? ==>
                  var (q, t) := r.value;
                  && t < 24 && p.tableOwner[t] == 0 && (forall j :: 0 <= j < t ==> p.tableOwner[j] != 0)
                  && q == Pools(p.tables[t := q.tables[t]], p.data, p.tableOwner[t := if owner == 0 then -1 else owner], p.dataOwner)
                  && |q.tables[t]| == 512 && forall i :: 0 <= i < 512 ==> q.tables[t][i] == Pte(Phys(0), false, false, false, false, false))
  {
  }

  /** The same for a data page, with the content it is given. */
  lemma {:induction false} DataTaken(p: Pools, owner: int, content: Page)
    requires Sized(p)
    ensures var r := AllocData(p, owner, content);
            && (r == None <==> forall d :: 0 <= d < 16 ==> p.dataOwner[d] != 0)
            && (r.Some? ==>
                  var (q, d) := r.value;
                  && d < 16 && p.dataOwner[d] == 0 && (forall j :: 0 <= j < d ==> p.dataOwner[j] != 0)
                  && q == Pools(p.tables, p.data[d := content], p.tableOwner, p.dataOwner[d := if owner == 0 then -1 else owner]))
  {
  }

  /** A request for pages that are not to be zeroed takes one data page, if there is one, leaves it
      zeroed and mapped nowhere, and fails. */
  lemma {:induction false} UnzeroedFails(p: Pools, owner: int, root: nat, vaddr: nat, len: nat)
    requires Sized(p) && root < MAX_USER_PT && len > 0
    ensures var (q, st) := MapRw(p, owner, root, vaddr, len, false);
            && st == -1 && q.tables == p.tables && q.tableOwner == p.tableOwner
            && ((forall d :: 0 <= d < 16 ==> p.dataOwner[d] != 0) ==> q == p)
            && forall d :: 0 <= d < 16 && p.dataOwner[d] == 0 && (forall j :: 0 <= j < d ==> p.dataOwner[j] != 0) ==>
                 && q.dataOwner == p.dataOwner[d := if owner == 0 then -1 else owner]
                 && q.data == p.data[d := q.data[d]] && forall i :: 0 <= i < 4096 ==> q.data[d][i] == 0
  {
    hide AllocData;
    DataTaken(p, owner, ZeroPage());
  }

  /** Giving an owner's pages back leaves none tagged with it and all other tags alone. */
  lemma {:induction false} ReleaseFrees(p: Pools, owner: int)
    requires Sized(p) && owner != 0
    ensures var q := Release(p, owner);
            && owner !in q.tableOwner && owner !in q.dataOwner
            && (forall t :: 0 <= t < MAX_USER_PT ==> q.tableOwner[t] == p.tableOwner[t] || (p.tableOwner[t] == owner && q.tableOwner[t] == 0))
            && (forall d :: 0 <= d < MAX_USER_DATA ==> q.dataOwner[d] == p.dataOwner[d] || (p.dataOwner[d] == owner && q.dataOwner[d] == 0))
  {
  }
}
