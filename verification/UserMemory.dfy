/**
 The user side of the memory manager as it runs: both page pools and their owner tags
 are arrays written in place. Every operation is proved to do to the pools what its
 specification in `PageTables` and `Elf` says.
 */
module UserMemory {
  import opened Common
  import opened PageTables
  import opened PageProofs
  import opened PoolProofs
  import opened Elf

  // ---- the bits of an entry ----

  const ADDRESS_BITS: bv64 := 0x000F_FFFF_FFFF_F000

  /** The word `set_page_entry` stores. */
  function EntryWord(phys: bv64, flags: bv64): bv64 { (phys & ADDRESS_BITS) | flags }

  /** A page-aligned address below 2^52 and flags outside its bits are both read back from
      the word, by the masks the walk uses. */
  lemma {:induction false} EntryWordDecodes(phys: bv64, flags: bv64)
    requires phys & 0x000F_FFFF_FFFF_F000 == phys && flags & 0x000F_FFFF_FFFF_F000 == 0
    ensures EntryWord(phys, flags) & 0x000F_FFFF_FFFF_F000 == phys
    ensures EntryWord(phys, flags) & 0xFFF0_0000_0000_0FFF == flags
  {
  }

  // ---- the pools ----

  ghost function TableAt(ptPool: array2<Pte>, t: nat): Table
    requires ptPool.Length1 == ENTRIES && t < ptPool.Length0
    reads ptPool
  {
    seq(ENTRIES, i requires 0 <= i < ENTRIES reads ptPool => ptPool[t, i])
  }

  ghost function PageAt(dataPool: array2<byte>, d: nat): Page
    requires dataPool.Length1 == PAGE && d < dataPool.Length0
    reads dataPool
  {
    seq(PAGE, i requires 0 <= i < PAGE reads dataPool => dataPool[d, i])
  }

  ghost function TablesOf(ptPool: array2<Pte>): (r: seq<Table>)
    requires ptPool.Length1 == ENTRIES
    reads ptPool
    ensures |r| == ptPool.Length0
  {
    seq(ptPool.Length0, t requires 0 <= t < ptPool.Length0 reads ptPool => TableAt(ptPool, t))
  }

  ghost function PagesOf(dataPool: array2<byte>): (r: seq<Page>)
    requires dataPool.Length1 == PAGE
    reads dataPool
    ensures |r| == dataPool.Length0
  {
    seq(dataPool.Length0, d requires 0 <= d < dataPool.Length0 reads dataPool => PageAt(dataPool, d))
  }

  /** `set_page_entry` */
  method SetPageEntry(ptPool: array2<Pte>, t: nat, i: nat, e: Pte)
    requires ptPool.Length1 == ENTRIES && t < ptPool.Length0 && i < ENTRIES
    modifies ptPool
    ensures TablesOf(ptPool) == old(TablesOf(ptPool))[t := old(TablesOf(ptPool))[t][i := e]]
  {
    ptPool[t, i] := e;
    forall u | 0 <= u < ptPool.Length0
      ensures TableAt(ptPool, u) == if u == t then old(TableAt(ptPool, t))[i := e] else old(TableAt(ptPool, u))
    {
    }
  }

  /** `zero_page` on a page of the table pool. */
  method ZeroTablePage(ptPool: array2<Pte>, t: nat)
    requires ptPool.Length1 == ENTRIES && t < ptPool.Length0
    modifies ptPool
    ensures TablesOf(ptPool) == old(TablesOf(ptPool))[t := ZeroTable()]
  {
    for i := 0 to ENTRIES
      invariant forall k :: 0 <= k < i ==> ptPool[t, k] == EMPTY
      invariant forall u, k :: 0 <= u < ptPool.Length0 && u != t && 0 <= k < ENTRIES ==> ptPool[u, k] == old(ptPool[u, k])
    {
      ptPool[t, i] := EMPTY;
    }
    forall u | 0 <= u < ptPool.Length0
      ensures TableAt(ptPool, u) == if u == t then ZeroTable() else old(TableAt(ptPool, u))
    {
    }
  }

  /** The copy loops: a data page filled from `mapped` on, zeros behind the end. */
  method FillPage(dataPool: array2<byte>, d: nat, bytes: seq<byte>, mapped: nat)
    requires dataPool.Length1 == PAGE && d < dataPool.Length0 && mapped % PAGE == 0
    modifies dataPool
    ensures PagesOf(dataPool) == old(PagesOf(dataPool))[d := SegmentPage(bytes, mapped / PAGE)]
  {
    for i := 0 to PAGE
      invariant forall k :: 0 <= k < i ==> dataPool[d, k] == if mapped + k < |bytes| then bytes[mapped + k] else 0
      invariant forall u, k :: 0 <= u < dataPool.Length0 && u != d && 0 <= k < PAGE ==> dataPool[u, k] == old(dataPool[u, k])
    {
      dataPool[d, i] := if mapped + i < |bytes| then bytes[mapped + i] else 0;
    }
    assert mapped / PAGE * PAGE == mapped;
    forall u | 0 <= u < dataPool.Length0
      ensures PageAt(dataPool, u) == if u == d then SegmentPage(bytes, mapped / PAGE) else old(PageAt(dataPool, u))
    {
    }
  }

  /** The search loops of both allocators. */
  method FindFree(owners: array<int>) returns (i: nat)
    ensures i == FirstFree(owners[..])
  {
    i := 0;
    while i < owners.Length && owners[i] != 0
      invariant i <= owners.Length && forall j :: 0 <= j < i ==> owners[j] != 0
    {
      i := i + 1;
    }
  }

  /** The release loops. */
  method UntagAll(owners: array<int>, owner: int)
    modifies owners
    ensures owners[..] == Untag(old(owners[..]), owner)
  {
    for i := 0 to owners.Length
      invariant forall k :: 0 <= k < owners.Length ==>
                  owners[k] == if k < i && old(owners[k]) == owner then 0 else old(owners[k])
    {
      if owners[i] == owner { owners[i] := 0; }
    }
  }

  method ZeroDataPage(dataPool: array2<byte>, d: nat)
    requires dataPool.Length1 == PAGE && d < dataPool.Length0
    modifies dataPool
    ensures PagesOf(dataPool) == old(PagesOf(dataPool))[d := ZeroPage()]
  {
    for i := 0 to PAGE
      invariant forall k :: 0 <= k < i ==> dataPool[d, k] == 0
      invariant forall u, k :: 0 <= u < dataPool.Length0 && u != d && 0 <= k < PAGE ==> dataPool[u, k] == old(dataPool[u, k])
    {
      dataPool[d, i] := 0;
    }
    forall u | 0 <= u < dataPool.Length0
      ensures PageAt(dataPool, u) == if u == d then ZeroPage() else old(PageAt(dataPool, u))
    {
    }
  }

  /** What a data page holds is independent of the tag it was taken under. */
  lemma {:induction false} TakeThenFill(p: Pools, owner: int, content: Page)
    requires Sized(p) && AllocData(p, owner, ZeroPage()).Some?
    ensures var (q, d) := AllocData(p, owner, ZeroPage()).value;
            AllocData(p, owner, content) == Some((q.(data := q.data[d := content]), d))
  {
    var (q, d) := AllocData(p, owner, ZeroPage()).value;
    assert q.data[d := content] == p.data[d := content];
  }

  class Manager {
    const ptPool: array2<Pte>
    const dataPool: array2<byte>
    const ptOwner: array<int>
    const dataOwner: array<int>
    var allocOwner: int

    ghost predicate Valid() {
      && ptPool.Length0 == ptOwner.Length == MAX_USER_PT && ptPool.Length1 == ENTRIES
      && dataPool.Length0 == dataOwner.Length == MAX_USER_DATA && dataPool.Length1 == PAGE
      && ptOwner != dataOwner
    }

    /** The pools as a value. */
    ghost function Contents(): (p: Pools)
      requires Valid()
      reads ptPool, dataPool, ptOwner, dataOwner
      ensures Sized(p)
    {
      Pools(TablesOf(ptPool), PagesOf(dataPool), ptOwner[..], dataOwner[..])
    }

    constructor ()
      ensures Valid() && fresh(ptPool) && fresh(dataPool) && fresh(ptOwner) && fresh(dataOwner) && allocOwner == 0
      ensures Contents() == Pools(seq(MAX_USER_PT, _ => ZeroTable()), seq(MAX_USER_DATA, _ => ZeroPage()),
                                  seq(MAX_USER_PT, _ => 0), seq(MAX_USER_DATA, _ => 0))
    {
      ptPool := new Pte[MAX_USER_PT, ENTRIES]((_, _) => EMPTY);
      dataPool := new byte[MAX_USER_DATA, PAGE]((_, _) => 0);
      ptOwner := new int[MAX_USER_PT](_ => 0);
      dataOwner := new int[MAX_USER_DATA](_ => 0);
      allocOwner := 0;
      new;
      forall t | 0 <= t < MAX_USER_PT ensures TableAt(ptPool, t) == ZeroTable() {}
      forall d | 0 <= d < MAX_USER_DATA ensures PageAt(dataPool, d) == ZeroPage() {}
    }

    method SetOwner(owner: int)
      requires Valid()
      modifies this
      ensures allocOwner == owner && Valid() && Contents() == old(Contents())
    {
      allocOwner := owner;
    }

    /** `alloc_user_pt`: a table index, or -1. */
    method AllocUserPt() returns (t: int)
      requires Valid()
      modifies ptPool, ptOwner
      ensures match AllocTable(old(Contents()), allocOwner)
              case None => t == -1 && Contents() == old(Contents())
              case Some((q, i)) => t == i && Contents() == q
    {
      var i := FindFree(ptOwner);
      if i == ptOwner.Length { return -1; }
      ptOwner[i] := if allocOwner != 0 then allocOwner else -1;
      ZeroTablePage(ptPool, i);
      t := i;
    }

    /** `alloc_user_data`, then the copy loop of its caller. */
    method AllocFilled(bytes: seq<byte>, mapped: nat) returns (d: int)
      requires Valid() && mapped % PAGE == 0
      modifies dataPool, dataOwner
      ensures match AllocData(old(Contents()), allocOwner, SegmentPage(bytes, mapped / PAGE))
              case None => d == -1 && Contents() == old(Contents())
              case Some((q, i)) => d == i && Contents() == q
    {
      hide SegmentPage;
      d := AllocUserData();
      if d != -1 {
        FillPage(dataPool, d, bytes, mapped);
        TakeThenFill(old(Contents()), allocOwner, SegmentPage(bytes, mapped / PAGE));
      }
    }

    method AllocUserData() returns (d: int)
      requires Valid()
      modifies dataPool, dataOwner
      ensures match AllocData(old(Contents()), allocOwner, ZeroPage())
              case None => d == -1 && Contents() == old(Contents())
              case Some((q, i)) => d == i && Contents() == q
    {
      var i := FindFree(dataOwner);
      if i == dataOwner.Length { return -1; }
      dataOwner[i] := if allocOwner != 0 then allocOwner else -1;
      ZeroDataPage(dataPool, i);
      d := i;
    }

    /** `memory_release_user` */
    method ReleaseUser(owner: int)
      requires Valid()
      modifies ptOwner, dataOwner
      ensures Contents() == Release(old(Contents()), owner)
    {
      if owner == 0 { return; }
      UntagAll(ptOwner, owner);
      UntagAll(dataOwner, owner);
    }

    method PutEntry(t: nat, i: nat, e: Pte)
      requires Valid() && t < MAX_USER_PT && i < ENTRIES
      modifies ptPool
      ensures Contents() == SetEntry(old(Contents()), t, i, e)
    {
      SetPageEntry(ptPool, t, i, e);
    }

    method GetEntry(t: nat, i: nat) returns (e: Pte)
      requires Valid() && t < MAX_USER_PT && i < ENTRIES
      ensures e == Entry(Contents(), t, i)
    {
      assert Contents().tables[t] == TableAt(ptPool, t);
      e := ptPool[t, i];
    }

    /** `memory_create_user_tables`: all three tables are taken before any is looked at. */
    method CreateUserTables() returns (root: int)
      requires Valid()
      modifies ptPool, ptOwner
      ensures match CreateTables(old(Contents()), allocOwner)
              case (q, None) => root == -1 && Contents() == q
              case (q, Some(r)) => root == r && Contents() == q
    {
      hide AllocTable;
      var pml4 := AllocUserPt();
      var pdpt := AllocUserPt();
      var pd := AllocUserPt();
      if pml4 == -1 || pdpt == -1 || pd == -1 { return -1; }
      PutEntry(pml4, 0, TablePte(pdpt));
      PutEntry(pdpt, 0, TablePte(pd));
      PutEntry(pd, 0, KernelPte(0));
      PutEntry(pd, 1, KernelPte(0x20_0000));
      root := pml4;
    }

    /** `map_pt_flags` on the tables of a live program. */
    method MapPtFlags(root: nat, page: nat, frame: Frame, write: bool, nx: bool, ghost roles: seq<Role>) returns (s: int)
      requires Valid() && Forest(Contents(), roles) && root < MAX_USER_PT && roles[root].Top?
      modifies ptPool, ptOwner
      ensures (Contents(), s) == MapPt(old(Contents()), allocOwner, root, page, frame, write, nx)
    {
      hide AllocTable, Index;
      ghost var p := Contents();
      var e4 := GetEntry(root, Index(page, 4));
      assert UpperEntryOk(p, roles, root, Index(page, 4));
      assert Route(p, root, page, 1) == Child(p, e4);
      if !e4.present { return -1; }
      var pdpt := e4.frame.t;
      var e3 := GetEntry(pdpt, Index(page, 3));
      assert UpperEntryOk(p, roles, pdpt, Index(page, 3));
      if !e3.present { return -1; }
      var pd := e3.frame.t;
      assert Route(p, root, page, 2) == Some(pd);
      var e2 := GetEntry(pd, Index(page, 2));
      assert UpperEntryOk(p, roles, pd, Index(page, 2));
      if e2.huge { return -2; }
      var pt: int;
      if e2.present {
        pt := e2.frame.t;
      } else {
        pt := AllocUserPt();
        if pt == -1 { return -1; }
        PutEntry(pd, Index(page, 2), TablePte(pt));
      }
      PutEntry(pt, Index(page, 1), LeafPte(frame, write, nx));
      s := 0;
    }

    /** The tree at `root` belongs to the current owner. */
    ghost predicate Live(root: nat, roles: seq<Role>)
      requires Valid()
      reads this, ptPool, dataPool, ptOwner, dataOwner
    {
      root < MAX_USER_PT && Forest(Contents(), roles) && roles[root].Top? && Contents().tableOwner[root] == Tag(allocOwner)
    }

    /** One round of the mapping loops: a page is taken, filled and mapped. */
    method MapNext(root: nat, page: nat, bytes: seq<byte>, mapped: nat, write: bool, nx: bool, ghost roles: seq<Role>)
      returns (st: int, ghost roles': seq<Role>)
      requires Valid() && Live(root, roles) && page < PAGES && (write ==> nx) && mapped % PAGE == 0
      modifies ptPool, dataPool, ptOwner, dataOwner
      ensures match AllocData(old(Contents()), allocOwner, SegmentPage(bytes, mapped / PAGE))
              case None => st == -1 && Contents() == old(Contents())
              case Some((q, d)) => (Contents(), st) == MapPt(q, allocOwner, root, page, DataFrame(d), write, nx)
      ensures Live(root, roles')
    {
      hide SegmentPage, Forest, MapPt, Contents, AllocData;
      ghost var p := Contents();
      roles' := roles;
      var d := AllocFilled(bytes, mapped);
      if d == -1 { return -1, roles'; }
      AllocDataForest(p, roles, allocOwner, SegmentPage(bytes, mapped / PAGE));
      ForestSized(p, roles);
      ghost var q := Contents();
      st := MapPtFlags(root, page, DataFrame(d), write, nx, roles);
      MapOne(q, roles, allocOwner, root, page, d, write, nx);
      if st == 0 { roles' := MapRoles(q, roles, root, page); }
    }

    /** `memory_map_user_segment` */
    method MapUserSegment(root: nat, s: Segment, ghost roles: seq<Role>) returns (st: int, ghost roles': seq<Role>)
      requires Valid() && root < MAX_USER_PT && Live(root, roles)
      modifies ptPool, dataPool, ptOwner, dataOwner
      ensures (Contents(), st) == MapSegment(old(Contents()), allocOwner, root, s)
      ensures Live(root, roles')
    {
      hide SegmentPage, Forest, MapPt, Contents, AllocData, PageOf, Live, MapPages;
      roles' := roles;
      if s.write && s.exec { return -1, roles'; }
      if s.memSize < |s.bytes| { return -1, roles'; }
      var addr, mapped := s.vaddr, 0;
      ghost var pages := SegmentPages(s);
      ghost var j := 0;
      assert pages[0..] == pages;
      while mapped < s.memSize
        invariant mapped == j * PAGE && j <= |pages| && (mapped < s.memSize <==> j < |pages|)
        invariant Live(root, roles') && addr == s.vaddr + mapped
        invariant MapPages(Contents(), allocOwner, root, PageOf(addr), pages[j..], s.write, !s.exec)
                  == MapPages(old(Contents()), allocOwner, root, PageOf(s.vaddr), pages, s.write, !s.exec)
      {
        PagesFrom(Contents(), allocOwner, root, addr, pages, j, s.write, !s.exec);
        var t;
        t, roles' := MapNext(root, PageOf(addr), s.bytes, mapped, s.write, !s.exec, roles');
        if t != 0 { return -1, roles'; }
        addr, mapped := addr + PAGE, mapped + PAGE;
        j := j + 1;
      }
      assert pages[j..] == [];
      NoPages(Contents(), allocOwner, root, PageOf(addr), s.write, !s.exec);
      st := 0;
    }

    /** `memory_map_user_rx`: what is left to copy shrinks by a page each round. */
    method MapUserRx(root: nat, vaddr: nat, src: seq<byte>, ghost roles: seq<Role>) returns (st: int, ghost roles': seq<Role>)
      requires Valid() && root < MAX_USER_PT && Live(root, roles)
      modifies ptPool, dataPool, ptOwner, dataOwner
      ensures (Contents(), st) == MapSegment(old(Contents()), allocOwner, root, RxSegment(vaddr, src))
      ensures Live(root, roles')
    {
      hide SegmentPage, Forest, MapPt, Contents, AllocData, PageOf, Live, MapPages;
      roles' := roles;
      var addr, bytes := vaddr, src;
      ghost var pages := SegmentPages(RxSegment(vaddr, src));
      ghost var j := 0;
      assert pages[0..] == pages;
      while |bytes| > 0
        invariant j <= |pages| && (bytes != [] <==> j < |pages|)
        invariant bytes == src[Min(j * PAGE, |src|)..]
        invariant Live(root, roles') && addr == vaddr + j * PAGE
        invariant MapPages(Contents(), allocOwner, root, PageOf(addr), pages[j..], false, false)
                  == MapPages(old(Contents()), allocOwner, root, PageOf(vaddr), pages, false, false)
        decreases |bytes|
      {
        PagesFrom(Contents(), allocOwner, root, addr, pages, j, false, false);
        LaterPage(src, j);
        var t;
        t, roles' := MapNext(root, PageOf(addr), bytes, 0, false, false, roles');
        if t != 0 { return -1, roles'; }
        var chunk := Min(PAGE, |bytes|);
        bytes, addr := bytes[chunk..], addr + PAGE;
        j := j + 1;
      }
      assert pages[j..] == [];
      NoPages(Contents(), allocOwner, root, PageOf(addr), false, false);
      st := 0;
    }

    /** `memory_map_user_rw` */
    method MapUserRw(root: nat, vaddr: nat, size: nat, zeroFill: bool, ghost roles: seq<Role>) returns (st: int, ghost roles': seq<Role>)
      requires Valid() && root < MAX_USER_PT && Live(root, roles)
      modifies ptPool, dataPool, ptOwner, dataOwner
      ensures (Contents(), st) == MapRw(old(Contents()), allocOwner, root, vaddr, size, zeroFill)
      ensures Live(root, roles')
    {
      hide SegmentPage, Forest, MapPt, Contents, AllocData, PageOf, Live, MapPages;
      roles' := roles;
      var addr, len := vaddr, size;
      ghost var pages := SegmentPages(RwSegment(vaddr, size));
      ghost var j := 0;
      assert pages[0..] == pages;
      ZeroContent();
      while len > 0
        invariant j <= |pages| && (len > 0 <==> j < |pages|) && len == Max(0, size - j * PAGE)
        invariant Live(root, roles') && addr == vaddr + j * PAGE && (!zeroFill ==> j == 0)
        invariant !zeroFill ==> Contents() == old(Contents())
        invariant MapPages(Contents(), allocOwner, root, PageOf(addr), pages[j..], true, true)
                  == MapPages(old(Contents()), allocOwner, root, PageOf(vaddr), pages, true, true)
      {
        PagesFrom(Contents(), allocOwner, root, addr, pages, j, true, true);
        assert pages[j] == ZeroPage();
        if !zeroFill {
          var d;
          d, roles' := TakeOnly(root, roles');
          return -1, roles';
        }
        var t;
        t, roles' := MapNext(root, PageOf(addr), [], 0, true, true, roles');
        if t != 0 { return -1, roles'; }
        addr := addr + PAGE;
        if len > PAGE { len := len - PAGE; } else { len := 0; }
        j := j + 1;
      }
      assert pages[j..] == [];
      NoPages(Contents(), allocOwner, root, PageOf(addr), true, true);
      st := 0;
    }

    method TakeOnly(root: nat, ghost roles: seq<Role>) returns (d: int, ghost roles': seq<Role>)
      requires Valid() && root < MAX_USER_PT && Live(root, roles)
      modifies ptPool, dataPool, ptOwner, dataOwner
      ensures match AllocData(old(Contents()), allocOwner, ZeroPage())
              case None => d == -1 && Contents() == old(Contents())
              case Some((q, i)) => d == i && Contents() == q
      ensures Live(root, roles')
    {
      hide Forest, Contents, AllocData;
      ghost var p := Contents();
      roles' := roles;
      d := AllocUserData();
      if d != -1 { AllocDataForest(p, roles, allocOwner, ZeroPage()); }
    }

    /** The header loop of `elf_load`. */
    method LoadAll(root: nat, image: seq<byte>, n: nat, ghost roles: seq<Role>) returns (ok: bool, ghost roles': seq<Role>)
      requires Valid() && root < MAX_USER_PT && Live(root, roles) && IsElf(image)
      modifies ptPool, dataPool, ptOwner, dataOwner
      ensures (Contents(), ok) == LoadHeaders(old(Contents()), allocOwner, root, image, 0, n)
      ensures Live(root, roles')
    {
      hide Forest, Contents, Live, MapSegment, HeaderAt, HeaderOffset, IsElf;
      roles' := roles;
      var i := 0;
      while i < n
        invariant i <= n && Live(root, roles')
        invariant LoadHeaders(Contents(), allocOwner, root, image, i, n) == LoadHeaders(old(Contents()), allocOwner, root, image, 0, n)
      {
        match HeaderAt(image, HeaderOffset(image, i)) {
          case Bad => return false, roles';
          case Skip =>
          case Load(s) =>
            var st;
            st, roles' := MapUserSegment(root, s, roles');
            if st != 0 { return false, roles'; }
        }
        i := i + 1;
      }
      ok := true;
    }

    /** `elf_load` */
    method LoadImage(root: nat, image: seq<byte>, ghost roles: seq<Role>) returns (entry: Option<nat>, ghost roles': seq<Role>)
      requires Valid() && root < MAX_USER_PT && Live(root, roles)
      modifies ptPool, dataPool, ptOwner, dataOwner
      ensures (Contents(), entry) == ElfLoad(old(Contents()), allocOwner, root, image)
      ensures Live(root, roles')
    {
      hide Forest, Contents, Live, MapSegment, LoadHeaders, Le;
      roles' := roles;
      if image == [] { return None, roles'; }
      if IsFlat(image) {
        var st;
        st, roles' := MapUserSegment(root, FlatSegment(image), roles);
        if st != 0 { return None, roles'; }
        return Some(USER_CODE_VADDR), roles';
      }
      if !IsElf(image) { return None, roles'; }
      if Le(image, 32, 8) > |image| { return None, roles'; }
      var ok;
      ok, roles' := LoadAll(root, image, Le(image, 56, 2), roles);
      if !ok { return None, roles'; }
      entry := Some(Le(image, 24, 8));
    }
  }

  lemma {:induction false} NoPages(p: Pools, owner: int, root: nat, page: nat, write: bool, nx: bool)
    requires Sized(p) && root < MAX_USER_PT
    ensures MapPages(p, owner, root, page, [], write, nx) == (p, 0)
  {
  }

  /** The rest of a copied buffer shows the pages still to come. */
  lemma {:induction false} LaterPage(src: seq<byte>, j: nat)
    requires j * PAGE < |src|
    ensures SegmentPage(src[j * PAGE..], 0) == SegmentPage(src, j)
  {
  }

  lemma {:induction false} ZeroContent()
    ensures forall j: nat :: SegmentPage([], j) == ZeroPage()
  {
  }

  /** One step of the mapping loop's specification. */
  lemma {:induction false} PagesFrom(p: Pools, owner: int, root: nat, addr: nat, pages: seq<Page>, j: nat, write: bool, nx: bool)
    requires Sized(p) && root < MAX_USER_PT && j < |pages|
    ensures MapPages(p, owner, root, PageOf(addr), pages[j..], write, nx)
            == match AllocData(p, owner, pages[j])
               case None => (p, -1)
               case Some((q, d)) =>
                 var (u, s) := MapPt(q, owner, root, PageOf(addr), DataFrame(d), write, nx);
                 if s != 0 then (u, -1) else MapPages(u, owner, root, PageOf(addr + PAGE), pages[j + 1..], write, nx)
  {
    hide MapPt, AllocData, PageOf;
    assert pages[j..][1..] == pages[j + 1..];
    PageNext(addr);
  }

  lemma {:induction false} PageNext(addr: nat)
    ensures PageOf(addr + PAGE) == (PageOf(addr) + 1) % PAGES
  {
    assert (addr + PAGE) / PAGE == addr / PAGE + 1;
  }
}
