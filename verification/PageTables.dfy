/**
 Four-level page tables over the owner-tagged pools of user pages: what a walk of the
 tables yields, and what each operation of the memory manager does to it.
 */
module PageTables {
  import opened Common

  const PAGE: nat := 4096
  const ENTRIES: nat := 512
  const MAX_USER_PT: nat := 24
  const MAX_USER_DATA: nat := 16
  const PAGES: nat := 0x10_0000_0000  // pages in 48 bits of address

  /** What a table entry points at: a physical address, a page of the table pool, or a
      page of the data pool. */
  datatype Frame = Phys(addr: nat) | TableFrame(t: nat) | DataFrame(d: nat)

  datatype Pte = Pte(frame: Frame, present: bool, write: bool, user: bool, huge: bool, nx: bool)

  const EMPTY: Pte := Pte(Phys(0), false, false, false, false, false)

  type Table = s: seq<Pte> | |s| == ENTRIES witness seq(ENTRIES, _ => EMPTY)
  type Page = s: seq<byte> | |s| == PAGE witness seq(PAGE, _ => 0)

  function ZeroTable(): Table { seq(ENTRIES, _ => EMPTY) }

  function ZeroPage(): Page { seq(PAGE, _ => 0) }

  /** Both pools with their owner tags; tag 0 marks a free page. */
  datatype Pools = Pools(tables: seq<Table>, data: seq<Page>, tableOwner: seq<int>, dataOwner: seq<int>)

  predicate Sized(p: Pools) {
    |p.tables| == |p.tableOwner| == MAX_USER_PT && |p.data| == |p.dataOwner| == MAX_USER_DATA
  }

  // ---- the walk ----

  /** Table index of a page number at a level of the tree: 4 is the root, 1 the leaves. */
  function Index(page: nat, level: nat): (i: nat)
    requires 1 <= level <= 4
    ensures i < ENTRIES
  {
    match level
    case 4 => page / 0x800_0000 % 512
    case 3 => page / 0x4_0000 % 512
    case 2 => page / 512 % 512
    case _ => page % 512
  }

  function PageOf(vaddr: nat): (page: nat)
    ensures page < PAGES
  {
    vaddr / PAGE % PAGES
  }

  function Entry(p: Pools, t: nat, i: nat): Pte
    requires t < |p.tables| && i < ENTRIES
  {
    p.tables[t][i]
  }

  /** The table an entry leads to. */
  function Child(p: Pools, e: Pte): (c: Option<nat>)
    ensures c.Some? ==> c.value < |p.tables|
  {
    if e.present && !e.huge && e.frame.TableFrame? && e.frame.t < |p.tables| then Some(e.frame.t) else None
  }

  /** The table reached from the root after n steps on the way to a page. */
  function Route(p: Pools, root: nat, page: nat, n: nat): (t: Option<nat>)
    requires root < |p.tables| && n <= 3
    ensures t.Some? ==> t.value < |p.tables|
    decreases n
  {
    if n == 0 then Some(root)
    else
      match Route(p, root, page, n - 1)
      case None => None
      case Some(t) => Child(p, Entry(p, t, Index(page, 5 - n)))
  }

  /** Access rights granted by every entry on the first n steps. */
  function RouteRights(p: Pools, root: nat, page: nat, n: nat): Rights
    requires root < |p.tables| && n <= 3
    decreases n
  {
    if n == 0 then Rights(true, true, true)
    else
      match Route(p, root, page, n - 1)
      case None => Rights(false, false, false)
      case Some(t) => Restrict(RouteRights(p, root, page, n - 1), Entry(p, t, Index(page, 5 - n)))
  }

  datatype Rights = Rights(write: bool, user: bool, exec: bool)

  function Restrict(r: Rights, e: Pte): Rights {
    Rights(r.write && e.write, r.user && e.user, r.exec && !e.nx)
  }

  datatype Walked = Unmapped | Mapped(frame: Frame, rights: Rights)

  /** What the processor finds for a page: 4 KB leaves and 2 MB entries of the third level. */
  function Walk(p: Pools, root: nat, page: nat): Walked
    requires root < |p.tables|
  {
    match Route(p, root, page, 2)
    case None => Unmapped
    case Some(pd) =>
      var e := Entry(p, pd, Index(page, 2));
      if e.present && e.huge then
        if e.frame.Phys? then Mapped(Phys(e.frame.addr + Index(page, 1) * PAGE), Restrict(RouteRights(p, root, page, 2), e))
        else Unmapped
      else
        match Route(p, root, page, 3)
        case None => Unmapped
        case Some(pt) =>
          var l := Entry(p, pt, Index(page, 1));
          if l.present then Mapped(l.frame, Restrict(RouteRights(p, root, page, 3), l)) else Unmapped
  }

  // ---- the pools ----

  function Tag(owner: int): int { if owner == 0 then -1 else owner }

  /** First free page, or the number of pages when none is free. */
  function FirstFree(owners: seq<int>): (i: nat)
    ensures i <= |owners|
    ensures i < |owners| ==> owners[i] == 0
    ensures forall j :: 0 <= j < i ==> owners[j] != 0
  {
    if owners == [] || owners[0] == 0 then 0 else 1 + FirstFree(owners[1..])
  }

  /** `alloc_user_pt`: a zeroed, tagged page of the table pool. */
  function AllocTable(p: Pools, owner: int): (r: Option<(Pools, nat)>)
    requires Sized(p)
    ensures r.Some? ==> Sized(r.value.0) && r.value.1 < MAX_USER_PT
  {
    var i := FirstFree(p.tableOwner);
    if i == |p.tableOwner| then None
    else Some((p.(tables := p.tables[i := ZeroTable()], tableOwner := p.tableOwner[i := Tag(owner)]), i))
  }

  /** `alloc_user_data`, the page then filled with the given content. */
  function AllocData(p: Pools, owner: int, content: Page): (r: Option<(Pools, nat)>)
    requires Sized(p)
    ensures r.Some? ==> Sized(r.value.0) && r.value.1 < MAX_USER_DATA
  {
    var i := FirstFree(p.dataOwner);
    if i == |p.dataOwner| then None
    else Some((p.(data := p.data[i := content], dataOwner := p.dataOwner[i := Tag(owner)]), i))
  }

  /** `set_page_entry` */
  function SetEntry(p: Pools, t: nat, i: nat, e: Pte): (r: Pools)
    requires Sized(p) && t < MAX_USER_PT && i < ENTRIES
    ensures Sized(r)
  {
    p.(tables := p.tables[t := p.tables[t][i := e]])
  }

  function TablePte(t: nat): Pte { Pte(TableFrame(t), true, true, true, false, false) }

  function KernelPte(addr: nat): Pte { Pte(Phys(addr), true, true, false, true, false) }

  function LeafPte(frame: Frame, write: bool, nx: bool): Pte { Pte(frame, true, write, true, false, nx) }

  /** `map_pt_flags`: 0, -1 when a table is missing or none is left, -2 on a 2 MB entry. */
  function MapPt(p: Pools, owner: int, root: nat, page: nat, frame: Frame, write: bool, nx: bool): (r: (Pools, int))
    requires Sized(p) && root < MAX_USER_PT
    ensures Sized(r.0)
  {
    match Route(p, root, page, 2)
    case None => (p, -1)
    case Some(pd) =>
      var e := Entry(p, pd, Index(page, 2));
      if e.huge then (p, -2)
      else if e.present then
        (match Child(p, e)
         case None => (p, -1)
         case Some(pt) => (SetEntry(p, pt, Index(page, 1), LeafPte(frame, write, nx)), 0))
      else
        match AllocTable(p, owner)
        case None => (p, -1)
        case Some((q, pt)) =>
          (SetEntry(SetEntry(q, pd, Index(page, 2), TablePte(pt)), pt, Index(page, 1), LeafPte(frame, write, nx)), 0)
  }

  /** `memory_create_user_tables`: three tables are taken even when one of them is not to
      be had; on success the first 4 MB are mapped for the supervisor. */
  function CreateTables(p: Pools, owner: int): (r: (Pools, Option<nat>))
    requires Sized(p)
    ensures Sized(r.0) && (r.1.Some? ==> r.1.value < MAX_USER_PT)
  {
    match AllocTable(p, owner)
    case None => (p, None)
    case Some((p1, pml4)) =>
      match AllocTable(p1, owner)
      case None => (p1, None)
      case Some((p2, pdpt)) =>
        match AllocTable(p2, owner)
        case None => (p2, None)
        case Some((p3, pd)) =>
          var q := SetEntry(SetEntry(p3, pml4, 0, TablePte(pdpt)), pdpt, 0, TablePte(pd));
          (SetEntry(SetEntry(q, pd, 0, KernelPte(0)), pd, 1, KernelPte(0x20_0000)), Some(pml4))
  }

  /** `memory_release_user` */
  function Release(p: Pools, owner: int): (r: Pools)
    requires Sized(p)
    ensures Sized(r)
  {
    if owner == 0 then p
    else p.(tableOwner := Untag(p.tableOwner, owner), dataOwner := Untag(p.dataOwner, owner))
  }

  function Untag(owners: seq<int>, owner: int): seq<int> {
    seq(|owners|, i requires 0 <= i < |owners| => if owners[i] == owner then 0 else owners[i])
  }

  /** The mapping loops: a data page for each content in turn, mapped at successive pages. */
  function MapPages(p: Pools, owner: int, root: nat, page: nat, contents: seq<Page>, write: bool, nx: bool): (r: (Pools, int))
    requires Sized(p) && root < MAX_USER_PT
    ensures Sized(r.0)
    decreases |contents|
  {
    if contents == [] then (p, 0)
    else
      match AllocData(p, owner, contents[0])
      case None => (p, -1)
      case Some((q, d)) =>
        var (u, s) := MapPt(q, owner, root, page, DataFrame(d), write, nx);
        if s != 0 then (u, -1) else MapPages(u, owner, root, (page + 1) % PAGES, contents[1..], write, nx)
  }

  // ---- the shape of the trees ----

  /** What a table page is used as: nothing, a root, or the table of `level` that entry
      `index` of `parent` leads to. */
  datatype Role = Unused | Top | Below(level: nat, parent: nat, index: nat)

  function LevelOf(r: Role): nat {
    match r case Unused => 0 case Top => 4 case Below(l, _, _) => l
  }

  /** Upper tables: entries are empty, supervisor 2 MB mappings, or lead to a table whose
      role names exactly this entry and whose owner is the same. */
  predicate UpperEntryOk(p: Pools, roles: seq<Role>, t: nat, i: nat)
    requires Sized(p) && |roles| == MAX_USER_PT && t < MAX_USER_PT && i < ENTRIES && LevelOf(roles[t]) >= 2
  {
    var e := Entry(p, t, i);
    || e == EMPTY
    || (LevelOf(roles[t]) == 2 && e.frame.Phys? && e == KernelPte(e.frame.addr))
    || (e.frame.TableFrame? && e == TablePte(e.frame.t) && e.frame.t < MAX_USER_PT
        && roles[e.frame.t] == Below(LevelOf(roles[t]) - 1, t, i)
        && p.tableOwner[e.frame.t] == p.tableOwner[t])
  }

  /** Leaf tables: entries are empty or map a data page of the same owner for the user,
      never both writable and executable. */
  predicate LeafEntryOk(p: Pools, t: nat, i: nat)
    requires Sized(p) && t < MAX_USER_PT && i < ENTRIES
  {
    var e := Entry(p, t, i);
    || e == EMPTY
    || (e.frame.DataFrame? && e == LeafPte(e.frame, e.write, e.nx) && (e.write ==> e.nx)
        && e.frame.d < MAX_USER_DATA && p.dataOwner[e.frame.d] == p.tableOwner[t])
  }

  predicate RoleOk(p: Pools, roles: seq<Role>, t: nat)
    requires Sized(p) && |roles| == MAX_USER_PT && t < MAX_USER_PT
  {
    && (roles[t].Unused? <==> p.tableOwner[t] == 0)
    && (roles[t].Below? ==> 1 <= roles[t].level <= 3)
  }

  /** The invariant of the pools: a forest, unshared, one owner to a tree. */
  ghost predicate Forest(p: Pools, roles: seq<Role>) {
    && Sized(p) && |roles| == MAX_USER_PT
    && (forall t :: 0 <= t < MAX_USER_PT ==> RoleOk(p, roles, t))
    && (forall t, i :: 0 <= t < MAX_USER_PT && LevelOf(roles[t]) >= 2 && 0 <= i < ENTRIES ==> UpperEntryOk(p, roles, t, i))
    && (forall t, i :: 0 <= t < MAX_USER_PT && LevelOf(roles[t]) == 1 && 0 <= i < ENTRIES ==> LeafEntryOk(p, t, i))
  }
}
