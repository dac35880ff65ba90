/**
 What building, filling and releasing address spaces does to every program's view of
 memory.
 */
module PoolProofs {
  import opened Common
  import opened PageTables
  import opened PageProofs

  // ---- what a program sees ----

  /** A page as user code sees it: its bytes and whether it may be written or executed. */
  datatype UserPage = UserPage(bytes: Page, write: bool, exec: bool)

  function View(p: Pools, root: nat, page: nat): Option<UserPage>
    requires Sized(p) && root < MAX_USER_PT
  {
    match Walk(p, root, page)
    case Mapped(DataFrame(d), r) => if r.user && d < MAX_USER_DATA then Some(UserPage(p.data[d], r.write, r.exec)) else None
    case _ => None
  }

  const KERNEL_PAGES: nat := 1024  // 4 MB

  /** The first 4 MB are mapped one to one for the supervisor only. */
  ghost predicate KernelMapped(p: Pools, root: nat)
    requires root < |p.tables|
  {
    forall page :: 0 <= page < KERNEL_PAGES ==> Walk(p, root, page) == Mapped(Phys(page * PAGE), Rights(true, false, true))
  }

  /** W^X, and user access reaches nothing but data pages of the tree's owner. */
  lemma {:induction false} UserAccess(p: Pools, roles: seq<Role>, root: nat, page: nat)
    requires Forest(p, roles) && root < MAX_USER_PT && roles[root].Top?
    requires Walk(p, root, page).Mapped? && Walk(p, root, page).rights.user
    ensures var w := Walk(p, root, page);
            && !(w.rights.write && w.rights.exec)
            && w.frame.DataFrame? && w.frame.d < MAX_USER_DATA && p.dataOwner[w.frame.d] == p.tableOwner[root]
  {
    hide Walk, Route;
    WalkShape(p, roles, root, page);
    var pd := Route(p, root, page, 2).value;
    assert LeafEntryOk(p, Entry(p, pd, Index(page, 2)).frame.t, Index(page, 1));
  }

  /** Programs of different owners share no data page. */
  lemma {:induction false} Isolation(p: Pools, roles: seq<Role>, root: nat, page: nat, root': nat, page': nat)
    requires Forest(p, roles) && root < MAX_USER_PT && root' < MAX_USER_PT && roles[root].Top? && roles[root'].Top?
    requires p.tableOwner[root] != p.tableOwner[root']
    requires Walk(p, root, page).Mapped? && Walk(p, root, page).rights.user
    requires Walk(p, root', page').Mapped? && Walk(p, root', page').rights.user
    ensures Walk(p, root, page).frame != Walk(p, root', page').frame
  {
    hide Walk, Forest;
    ForestSized(p, roles);
    UserAccess(p, roles, root, page);
    UserAccess(p, roles, root', page');
  }

  // ---- taking a data page ----

  /** Everything a tree that existed before shows is unchanged. */
  ghost predicate SameFor(p: Pools, q: Pools, root: nat) {
    Sized(p) && Sized(q) && root < MAX_USER_PT
    && forall page :: 0 <= page < PAGES ==> Walk(q, root, page) == Walk(p, root, page) && View(q, root, page) == View(p, root, page)
  }

  lemma {:induction false} AllocDataForest(p: Pools, roles: seq<Role>, owner: int, content: Page)
    requires Forest(p, roles) && AllocData(p, owner, content).Some?
    ensures var (q, d) := AllocData(p, owner, content).value;
            && Forest(q, roles) && q.dataOwner[d] == Tag(owner) && q.data[d] == content
            && q.tables == p.tables && q.tableOwner == p.tableOwner
  {
    var (q, d) := AllocData(p, owner, content).value;
    forall t, i | 0 <= t < MAX_USER_PT && LevelOf(roles[t]) >= 2 && 0 <= i < ENTRIES ensures UpperEntryOk(q, roles, t, i) {
      assert UpperEntryOk(p, roles, t, i);
    }
    forall t, i | 0 <= t < MAX_USER_PT && LevelOf(roles[t]) == 1 && 0 <= i < ENTRIES ensures LeafEntryOk(q, t, i) {
      assert LeafEntryOk(p, t, i) && RoleOk(p, roles, t);
    }
    forall t | 0 <= t < MAX_USER_PT ensures RoleOk(q, roles, t) {
      assert RoleOk(p, roles, t);
    }
  }

  lemma {:induction false} RouteTables(p: Pools, q: Pools, root: nat, page: nat, n: nat)
    requires q.tables == p.tables && root < |p.tables| && n <= 3
    ensures Route(q, root, page, n) == Route(p, root, page, n) && RouteRights(q, root, page, n) == RouteRights(p, root, page, n)
    decreases n
  {
    if n > 0 { RouteTables(p, q, root, page, n - 1); }
  }

  lemma {:induction false} WalkTables(p: Pools, q: Pools, root: nat, page: nat)
    requires q.tables == p.tables && root < |p.tables|
    ensures Walk(q, root, page) == Walk(p, root, page)
  {
    RouteTables(p, q, root, page, 2);
    RouteTables(p, q, root, page, 3);
  }

  lemma {:induction false} AllocDataSame(p: Pools, roles: seq<Role>, owner: int, content: Page, root: nat)
    requires Forest(p, roles) && AllocData(p, owner, content).Some? && root < MAX_USER_PT && roles[root].Top?
    ensures SameFor(p, AllocData(p, owner, content).value.0, root)
  {
    hide Walk, Forest;
    ForestSized(p, roles);
    var (q, d) := AllocData(p, owner, content).value;
    assert RoleOk(p, roles, root);
    forall page | 0 <= page < PAGES ensures Walk(q, root, page) == Walk(p, root, page) && View(q, root, page) == View(p, root, page) {
      WalkTables(p, q, root, page);
      if Walk(p, root, page).Mapped? && Walk(p, root, page).rights.user {
        UserAccess(p, roles, root, page);
      }
    }
  }

  // ---- the mapping loops ----

  function FreeCount(owners: seq<int>): (n: nat)
    ensures n <= |owners|
  {
    if owners == [] then 0 else (if owners[0] == 0 then 1 else 0) + FreeCount(owners[1..])
  }

  lemma {:induction false} FreeCountTaken(owners: seq<int>, tag: int)
    requires FirstFree(owners) < |owners| && tag != 0
    ensures FreeCount(owners[FirstFree(owners) := tag]) == FreeCount(owners) - 1
  {
    var i := FirstFree(owners);
    if owners[0] == 0 {
      assert owners[0 := tag][1..] == owners[1..];
    } else {
      assert owners[i := tag][1..] == owners[1..][i - 1 := tag];
      FreeCountTaken(owners[1..], tag);
    }
  }

  /** MapPt touches neither data pages nor their tags. */
  lemma {:induction false} MapPtData(p: Pools, owner: int, root: nat, page: nat, frame: Frame, write: bool, nx: bool)
    requires Sized(p) && root < MAX_USER_PT
    ensures var (q, s) := MapPt(p, owner, root, page, frame, write, nx); q.data == p.data && q.dataOwner == p.dataOwner
    ensures var (q, s) := MapPt(p, owner, root, page, frame, write, nx);
            forall t :: 0 <= t < MAX_USER_PT && p.tableOwner[t] != 0 ==> q.tableOwner[t] == p.tableOwner[t]
  {
  }

  /** The state of the pools after a mapping call is again a forest in which old roots are
      roots, and one page has its new meaning. */
  lemma {:induction false} MapOne(p: Pools, roles: seq<Role>, owner: int, root: nat, page: nat, d: nat, write: bool, nx: bool)
    requires Forest(p, roles) && root < MAX_USER_PT && roles[root].Top? && page < PAGES
    requires Mappable(p, root, owner, DataFrame(d), write, nx)
    ensures var (q, s) := MapPt(p, owner, root, page, DataFrame(d), write, nx);
            var roles' := if s == 0 then MapRoles(p, roles, root, page) else roles;
            && Forest(q, roles') && KeepsRoots(p, q, roles, roles')
            && (forall r :: 0 <= r < MAX_USER_PT && roles[r].Top? && r != root ==> SameFor(p, q, r))
            && (forall g :: 0 <= g < PAGES && g != page ==> View(q, root, g) == View(p, root, g) && Walk(q, root, g) == Walk(p, root, g))
            && View(q, root, page) == (if s == 0 then Some(UserPage(p.data[d], write, !nx)) else View(p, root, page))
            && (s != 0 ==> Walk(q, root, page) == Walk(p, root, page))
            && (s == 0 ==> Walk(q, root, page) == Mapped(DataFrame(d), Rights(write, true, !nx)))
  {
    hide Walk, Forest, MapPt, MapRoles;
    ForestSized(p, roles);
    var (q, s) := MapPt(p, owner, root, page, DataFrame(d), write, nx);
    var roles' := if s == 0 then MapRoles(p, roles, root, page) else roles;
    MapPtForest(p, roles, owner, root, page, DataFrame(d), write, nx);
    MapPtData(p, owner, root, page, DataFrame(d), write, nx);
    MapKeepsRoots(p, roles, owner, root, page, DataFrame(d), write, nx);
    forall r, g | 0 <= r < MAX_USER_PT && roles[r].Top? && 0 <= g < PAGES
      ensures Walk(q, r, g) == if s == 0 && r == root && g == page then Mapped(DataFrame(d), Rights(write, true, !nx)) else Walk(p, r, g)
      ensures !(s == 0 && r == root && g == page) ==> View(q, r, g) == View(p, r, g)
    {
      MapPtWalk(p, roles, owner, root, page, DataFrame(d), write, nx, r, g);
    }
  }

  /** Roots stay roots, with their owners. */
  ghost predicate KeepsRoots(p: Pools, q: Pools, roles: seq<Role>, roles': seq<Role>) {
    Sized(p) && Sized(q) && |roles| == |roles'| == MAX_USER_PT
    && forall r :: 0 <= r < MAX_USER_PT && roles[r].Top? ==> roles'[r].Top? && q.tableOwner[r] == p.tableOwner[r]
  }

  lemma {:induction false} MapKeepsRoots(p: Pools, roles: seq<Role>, owner: int, root: nat, page: nat, frame: Frame, write: bool, nx: bool)
    requires Forest(p, roles) && root < MAX_USER_PT && roles[root].Top?
    ensures var (q, s) := MapPt(p, owner, root, page, frame, write, nx);
            KeepsRoots(p, q, roles, if s == 0 then MapRoles(p, roles, root, page) else roles)
  {
    hide Forest, Route;
    ForestSized(p, roles);
    forall r | 0 <= r < MAX_USER_PT && roles[r].Top? ensures p.tableOwner[r] != 0 {
      assert RoleOk(p, roles, r);
    }
    MapPtData(p, owner, root, page, frame, write, nx);
  }

  /** How far page g lies behind `page`, going round at the end of the address space. */
  function Offset(page: nat, g: nat): (j: nat)
    requires page < PAGES && g < PAGES
    ensures j < PAGES
  {
    (g + PAGES - page) % PAGES
  }

  /** The view of a tree in which a run of pages now shows the given contents. */
  ghost predicate RunMapped(p: Pools, q: Pools, root: nat, page: nat, contents: seq<Page>, write: bool, nx: bool) {
    Sized(p) && Sized(q) && root < MAX_USER_PT && page < PAGES
    && forall g :: 0 <= g < PAGES ==>
         View(q, root, g) == if Offset(page, g) < |contents| then Some(UserPage(contents[Offset(page, g)], write, !nx))
                             else View(p, root, g)
  }

  /** Pages of the supervisor's 4 MB cannot be mapped over. */
  lemma {:induction false} KernelKept(p: Pools, roles: seq<Role>, owner: int, root: nat, page: nat, d: nat, write: bool, nx: bool)
    requires Forest(p, roles) && root < MAX_USER_PT && roles[root].Top? && page < PAGES
    requires Mappable(p, root, owner, DataFrame(d), write, nx) && KernelMapped(p, root)
    ensures var (q, s) := MapPt(p, owner, root, page, DataFrame(d), write, nx);
            KernelMapped(q, root) && (page < KERNEL_PAGES ==> s == -2)
  {
    hide Walk, Forest, MapRoles, Route;
    ForestSized(p, roles);
    MapOne(p, roles, owner, root, page, d, write, nx);
    if page < KERNEL_PAGES {
      WalkShape(p, roles, root, page);
      assert Walk(p, root, page) == Mapped(Phys(page * PAGE), Rights(true, false, true));
    }
  }

  lemma {:induction false} NextOffset(page: nat, g: nat)
    requires page < PAGES && g < PAGES
    ensures Offset((page + 1) % PAGES, g) == if Offset(page, g) == 0 then PAGES - 1 else Offset(page, g) - 1
    ensures Offset(page, g) == 0 <==> g == page
  {
  }

  /** The views after the first page and after the rest of a run, put together. */
  lemma {:induction false} CombineViews(p: Pools, p2: Pools, q: Pools, root: nat, page: nat, contents: seq<Page>, write: bool, nx: bool)
    requires page < PAGES && 0 < |contents| < PAGES
    requires RunMapped(p, p2, root, page, contents[..1], write, nx)
    requires RunMapped(p2, q, root, (page + 1) % PAGES, contents[1..], write, nx)
    ensures RunMapped(p, q, root, page, contents, write, nx)
  {
    hide View, Offset;
    forall g | 0 <= g < PAGES
      ensures View(q, root, g) == if Offset(page, g) < |contents| then Some(UserPage(contents[Offset(page, g)], write, !nx))
                                  else View(p, root, g)
    {
      NextOffset(page, g);
    }
  }

  lemma {:induction false} FirstMapped(p: Pools, q: Pools, root: nat, page: nat, content: Page, write: bool, nx: bool)
    requires Sized(p) && Sized(q) && root < MAX_USER_PT && page < PAGES
    requires View(q, root, page) == Some(UserPage(content, write, !nx))
    requires forall g :: 0 <= g < PAGES && g != page ==> View(q, root, g) == View(p, root, g)
    ensures RunMapped(p, q, root, page, [content], write, nx)
  {
    hide View, Offset;
    forall g | 0 <= g < PAGES
      ensures View(q, root, g) == if Offset(page, g) < 1 then Some(UserPage([content][Offset(page, g)], write, !nx)) else View(p, root, g)
    {
      NextOffset(page, g);
    }
  }

  lemma {:induction false} NoneMapped(p: Pools, root: nat, page: nat, write: bool, nx: bool)
    requires Sized(p) && root < MAX_USER_PT && page < PAGES
    ensures RunMapped(p, p, root, page, [], write, nx)
  {
    hide View;
  }

  lemma {:induction false} MapPagesStep(p: Pools, owner: int, root: nat, page: nat, contents: seq<Page>, write: bool, nx: bool)
    requires Sized(p) && root < MAX_USER_PT && contents != [] && AllocData(p, owner, contents[0]).Some?
    ensures var (q, d) := AllocData(p, owner, contents[0]).value;
            var (u, s) := MapPt(q, owner, root, page, DataFrame(d), write, nx);
            MapPages(p, owner, root, page, contents, write, nx)
            == if s != 0 then (u, -1) else MapPages(u, owner, root, (page + 1) % PAGES, contents[1..], write, nx)
  {
    hide MapPt;
  }

  /** The mapping loop, whole: on success each page of the run shows its content with the
      given rights; every other page of this tree and every other tree shows what it did;
      on failure other trees are still as they were. */
  lemma {:induction false} MapPagesView(p: Pools, roles: seq<Role>, owner: int, root: nat, page: nat, contents: seq<Page>,
                                        write: bool, nx: bool) returns (roles': seq<Role>)
    requires Forest(p, roles) && root < MAX_USER_PT && roles[root].Top? && page < PAGES
    requires p.tableOwner[root] == Tag(owner) && (write ==> nx)
    ensures var (q, s) := MapPages(p, owner, root, page, contents, write, nx);
            && Forest(q, roles') && KeepsRoots(p, q, roles, roles')
            && (forall r :: 0 <= r < MAX_USER_PT && roles[r].Top? && r != root ==> SameFor(p, q, r))
            && (KernelMapped(p, root) ==> KernelMapped(q, root))
            && (s == 0 ==> |contents| <= FreeCount(p.dataOwner) && RunMapped(p, q, root, page, contents, write, nx))
    decreases |contents|
  {
    hide Walk, Forest, MapPt, MapRoles, View;
    ForestSized(p, roles);
    roles' := roles;
    NoneMapped(p, root, page, write, nx);
    if contents != [] && AllocData(p, owner, contents[0]).Some? {
      var (p1, d) := AllocData(p, owner, contents[0]).value;
      AllocDataForest(p, roles, owner, contents[0]);
      forall r | 0 <= r < MAX_USER_PT && roles[r].Top? ensures SameFor(p, p1, r) {
        AllocDataSame(p, roles, owner, contents[0], r);
      }
      FreeCountTaken(p.dataOwner, Tag(owner));
      var (p2, s) := MapPt(p1, owner, root, page, DataFrame(d), write, nx);
      MapOne(p1, roles, owner, root, page, d, write, nx);
      MapPtData(p1, owner, root, page, DataFrame(d), write, nx);
      roles' := if s == 0 then MapRoles(p1, roles, root, page) else roles;
      MapPagesStep(p, owner, root, page, contents, write, nx);
      if KernelMapped(p, root) {
        assert KernelMapped(p1, root);
        KernelKept(p1, roles, owner, root, page, d, write, nx);
      }
      if s == 0 {
        assert p2.tableOwner[root] == Tag(owner);
        roles' := MapPagesView(p2, roles', owner, root, (page + 1) % PAGES, contents[1..], write, nx);
        if MapPages(p, owner, root, page, contents, write, nx).1 == 0 {
          FirstMapped(p, p2, root, page, contents[0], write, nx);
          assert contents[..1] == [contents[0]];
          CombineViews(p, p2, MapPages(p, owner, root, page, contents, write, nx).0, root, page, contents, write, nx);
        }
      }
    }
  }

  // ---- new and released trees ----

  /** q agrees with p on every table in use, and on all data. */
  ghost predicate SameUsed(p: Pools, q: Pools, roles: seq<Role>) {
    Sized(p) && Sized(q) && |roles| == MAX_USER_PT && q.data == p.data
    && forall t :: 0 <= t < MAX_USER_PT && !roles[t].Unused? ==> q.tables[t] == p.tables[t]
  }

  lemma {:induction false} RouteUsed(p: Pools, q: Pools, roles: seq<Role>, root: nat, page: nat, n: nat)
    requires Forest(p, roles) && SameUsed(p, q, roles) && root < MAX_USER_PT && roles[root].Top? && n <= 3
    ensures Route(q, root, page, n) == Route(p, root, page, n) && RouteRights(q, root, page, n) == RouteRights(p, root, page, n)
    decreases n
  {
    if n > 0 {
      RouteUsed(p, q, roles, root, page, n - 1);
      if Route(p, root, page, n - 1).Some? {
        RouteLevel(p, roles, root, page, n - 1);
      }
    }
  }

  lemma {:induction false} WalkUsed(p: Pools, q: Pools, roles: seq<Role>, root: nat)
    requires Forest(p, roles) && SameUsed(p, q, roles) && root < MAX_USER_PT && roles[root].Top?
    ensures SameFor(p, q, root)
  {
    hide Forest, Route, RouteRights;
    forall page | 0 <= page < PAGES ensures Walk(q, root, page) == Walk(p, root, page) && View(q, root, page) == View(p, root, page) {
      RouteUsed(p, q, roles, root, page, 2);
      RouteUsed(p, q, roles, root, page, 3);
      if Route(p, root, page, 2).Some? { RouteLevel(p, roles, root, page, 2); }
      if Route(p, root, page, 3).Some? { RouteLevel(p, roles, root, page, 3); }
    }
  }

  /** A fresh table joins the forest in whatever place it is meant for. */
  lemma {:induction false} AllocTableForest(p: Pools, roles: seq<Role>, owner: int, role: Role)
    requires Forest(p, roles) && AllocTable(p, owner).Some?
    requires role.Top? || (role.Below? && 1 <= role.level <= 3)
    ensures var (q, i) := AllocTable(p, owner).value;
            && Forest(q, roles[i := role]) && roles[i].Unused? && SameUsed(p, q, roles)
            && q.tables[i] == ZeroTable() && q.tableOwner == p.tableOwner[i := Tag(owner)] && p.tableOwner[i] == 0
            && KeepsRoots(p, q, roles, roles[i := role])
  {
    hide Forest, TableOk;
    ForestSized(p, roles);
    ForestTables(p, roles);
    var (q, i) := AllocTable(p, owner).value;
    var roles' := roles[i := role];
    assert RoleOk(p, roles, i);
    forall t | 0 <= t < MAX_USER_PT ensures RoleOk(q, roles', t) && TableOk(q, roles', t) {
      assert RoleOk(p, roles, t) && TableOk(p, roles, t);
      FreshTableOk(p, q, roles, i, role, t, owner);
    }
    ForestTables(q, roles');
  }

  lemma {:induction false} FreshTableOk(p: Pools, q: Pools, roles: seq<Role>, i: nat, role: Role, t: nat, owner: int)
    requires Sized(p) && |roles| == MAX_USER_PT && i < MAX_USER_PT && t < MAX_USER_PT && roles[i].Unused? && LevelOf(role) >= 1
    requires RoleOk(p, roles, t) && TableOk(p, roles, t)
    requires q == p.(tables := p.tables[i := ZeroTable()], tableOwner := p.tableOwner[i := Tag(owner)])
    ensures TableOk(q, roles[i := role], t)
  {
    var roles' := roles[i := role];
    if LevelOf(roles'[t]) >= 2 {
      forall k | 0 <= k < ENTRIES ensures UpperEntryOk(q, roles', t, k) {
        if t != i { assert UpperEntryOk(p, roles, t, k); }
      }
    } else if LevelOf(roles'[t]) == 1 {
      forall k | 0 <= k < ENTRIES ensures LeafEntryOk(q, t, k) {
        if t != i { assert LeafEntryOk(p, t, k); }
      }
    }
  }

  /** Writing a good entry into an upper table keeps the forest. */
  lemma {:induction false} SetUpper(p: Pools, roles: seq<Role>, t: nat, i: nat, e: Pte)
    requires Forest(p, roles) && t < MAX_USER_PT && i < ENTRIES && LevelOf(roles[t]) >= 2
    requires UpperEntryOk(SetEntry(p, t, i, e), roles, t, i)
    ensures Forest(SetEntry(p, t, i, e), roles)
  {
    hide Forest;
    ForestSized(p, roles);
    ForestTables(p, roles);
    var q := SetEntry(p, t, i, e);
    forall u | 0 <= u < MAX_USER_PT ensures RoleOk(q, roles, u) && TableOk(q, roles, u) {
      assert RoleOk(p, roles, u) && TableOk(p, roles, u);
      if LevelOf(roles[u]) >= 2 {
        forall k | 0 <= k < ENTRIES ensures UpperEntryOk(q, roles, u, k) {
          assert UpperEntryOk(p, roles, u, k);
        }
      } else if LevelOf(roles[u]) == 1 {
        forall k | 0 <= k < ENTRIES ensures LeafEntryOk(q, u, k) {
          assert LeafEntryOk(p, u, k);
        }
      }
    }
    ForestTables(q, roles);
  }

  /** The four entries that make three fresh tables an address space. */
  function LinkNew(p: Pools, pml4: nat, pdpt: nat, pd: nat): (r: Pools)
    requires Sized(p) && pml4 < MAX_USER_PT && pdpt < MAX_USER_PT && pd < MAX_USER_PT
    ensures Sized(r)
  {
    var q := SetEntry(SetEntry(p, pml4, 0, TablePte(pdpt)), pdpt, 0, TablePte(pd));
    SetEntry(SetEntry(q, pd, 0, KernelPte(0)), pd, 1, KernelPte(0x20_0000))
  }

  lemma {:induction false} LinkForest(p: Pools, roles: seq<Role>, pml4: nat, pdpt: nat, pd: nat)
    requires Forest(p, roles) && pml4 < MAX_USER_PT && pdpt < MAX_USER_PT && pd < MAX_USER_PT
    requires roles[pml4].Top? && roles[pdpt] == Below(3, pml4, 0) && roles[pd] == Below(2, pdpt, 0)
    requires p.tableOwner[pml4] == p.tableOwner[pdpt] == p.tableOwner[pd]
    ensures Forest(LinkNew(p, pml4, pdpt, pd), roles)
  {
    hide Forest;
    ForestSized(p, roles);
    SetUpper(p, roles, pml4, 0, TablePte(pdpt));
    var p1 := SetEntry(p, pml4, 0, TablePte(pdpt));
    SetUpper(p1, roles, pdpt, 0, TablePte(pd));
    var p2 := SetEntry(p1, pdpt, 0, TablePte(pd));
    SetUpper(p2, roles, pd, 0, KernelPte(0));
    SetUpper(SetEntry(p2, pd, 0, KernelPte(0)), roles, pd, 1, KernelPte(0x20_0000));
  }

  lemma {:induction false} LinkWalk(p: Pools, roles: seq<Role>, pml4: nat, pdpt: nat, pd: nat, page: nat)
    requires Sized(p) && pml4 < MAX_USER_PT && pdpt < MAX_USER_PT && pd < MAX_USER_PT
    requires Forest(LinkNew(p, pml4, pdpt, pd), roles)
    requires roles[pml4].Top? && pml4 != pdpt && pdpt != pd && pml4 != pd && page < PAGES
    requires p.tables[pml4] == p.tables[pdpt] == p.tables[pd] == ZeroTable()
    ensures Walk(LinkNew(p, pml4, pdpt, pd), pml4, page)
            == if page < KERNEL_PAGES then Mapped(Phys(page * PAGE), Rights(true, false, true)) else Unmapped
  {
    hide Walk, Forest, Index;
    var q := LinkNew(p, pml4, pdpt, pd);
    WalkShape(q, roles, pml4, page);
    Halve(page);
    assert Route(q, pml4, page, 1) == if Index(page, 4) == 0 then Some(pdpt) else None;
    assert Route(q, pml4, page, 2) == if Index(page, 4) == 0 && Index(page, 3) == 0 then Some(pd) else None;
  }

  /** A new address space disturbs nobody, and consists of the supervisor's 4 MB alone. */
  lemma {:induction false} CreateView(p: Pools, roles: seq<Role>, owner: int) returns (roles': seq<Role>)
    requires Forest(p, roles)
    ensures var (q, r) := CreateTables(p, owner);
            && Forest(q, roles') && KeepsRoots(p, q, roles, roles')
            && (forall t :: 0 <= t < MAX_USER_PT && roles[t].Top? ==> SameFor(p, q, t))
            && (r.Some? ==>
                  && roles'[r.value].Top? && roles[r.value].Unused? && q.tableOwner[r.value] == Tag(owner)
                  && KernelMapped(q, r.value)
                  && forall page :: KERNEL_PAGES <= page < PAGES ==> Walk(q, r.value, page) == Unmapped)
  {
    hide Walk, Forest, AllocTable;
    ForestSized(p, roles);
    roles' := roles;
    var q, r := CreateTables(p, owner).0, CreateTables(p, owner).1;
    if AllocTable(p, owner).Some? {
      var (p1, a) := AllocTable(p, owner).value;
      AllocTableForest(p, roles, owner, Top);
      roles' := roles[a := Top];
      if AllocTable(p1, owner).Some? {
        var (p2, b) := AllocTable(p1, owner).value;
        AllocTableForest(p1, roles', owner, Below(3, a, 0));
        roles' := roles'[b := Below(3, a, 0)];
        if AllocTable(p2, owner).Some? {
          var (p3, c) := AllocTable(p2, owner).value;
          AllocTableForest(p2, roles', owner, Below(2, b, 0));
          roles' := roles'[c := Below(2, b, 0)];
          LinkForest(p3, roles', a, b, c);
          forall page | 0 <= page < PAGES
            ensures Walk(q, a, page) == if page < KERNEL_PAGES then Mapped(Phys(page * PAGE), Rights(true, false, true)) else Unmapped
          {
            LinkWalk(p3, roles', a, b, c, page);
          }
        }
      }
    }
    assert SameUsed(p, q, roles);
    forall t | 0 <= t < MAX_USER_PT && roles[t].Top? ensures SameFor(p, q, t) {
      WalkUsed(p, q, roles, t);
    }
  }

  /** The roles left when an owner's pages are given back. */
  function ReleaseRoles(p: Pools, roles: seq<Role>, owner: int): seq<Role>
    requires Sized(p) && |roles| == MAX_USER_PT
  {
    seq(MAX_USER_PT, t requires 0 <= t < MAX_USER_PT => if owner != 0 && p.tableOwner[t] == owner then Unused else roles[t])
  }

  /** Releasing an owner keeps the forest and every other program's view. */
  lemma {:induction false} ReleaseView(p: Pools, roles: seq<Role>, owner: int)
    requires Forest(p, roles)
    ensures Forest(Release(p, owner), ReleaseRoles(p, roles, owner))
    ensures forall t :: 0 <= t < MAX_USER_PT && roles[t].Top? && p.tableOwner[t] != owner ==>
              SameFor(p, Release(p, owner), t) && ReleaseRoles(p, roles, owner)[t].Top?
              && Release(p, owner).tableOwner[t] == p.tableOwner[t]
  {
    hide Walk, Forest;
    ForestSized(p, roles);
    ForestTables(p, roles);
    var q, roles' := Release(p, owner), ReleaseRoles(p, roles, owner);
    forall t | 0 <= t < MAX_USER_PT ensures RoleOk(q, roles', t) && TableOk(q, roles', t) {
      assert RoleOk(p, roles, t) && TableOk(p, roles, t);
      ReleasedTableOk(p, roles, owner, t);
    }
    ForestTables(q, roles');
    forall t | 0 <= t < MAX_USER_PT && roles[t].Top? && p.tableOwner[t] != owner ensures SameFor(p, q, t) {
      forall page | 0 <= page < PAGES ensures Walk(q, t, page) == Walk(p, t, page) { WalkTables(p, q, t, page); }
    }
  }

  lemma {:induction false} ReleasedTableOk(p: Pools, roles: seq<Role>, owner: int, t: nat)
    requires Sized(p) && |roles| == MAX_USER_PT && t < MAX_USER_PT && RoleOk(p, roles, t) && TableOk(p, roles, t)
    ensures TableOk(Release(p, owner), ReleaseRoles(p, roles, owner), t)
  {
    var q, roles' := Release(p, owner), ReleaseRoles(p, roles, owner);
    if LevelOf(roles'[t]) >= 2 {
      forall k | 0 <= k < ENTRIES ensures UpperEntryOk(q, roles', t, k) {
        assert UpperEntryOk(p, roles, t, k);
      }
    } else if LevelOf(roles'[t]) == 1 {
      forall k | 0 <= k < ENTRIES ensures LeafEntryOk(q, t, k) {
        assert LeafEntryOk(p, t, k);
      }
    }
  }
}
