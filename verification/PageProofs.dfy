/**
 The page tables as a map: mapping a page changes the walk of that page alone, the trees
 stay an unshared forest with one owner to a tree, and no user page is ever both
 writable and executable.
 */
module PageProofs {
  import opened Common
  import opened PageTables

  // ---- routes ----

  /** The table a route reaches has the level of its depth and the owner of its root. */
  lemma {:induction false} RouteLevel(p: Pools, roles: seq<Role>, root: nat, page: nat, n: nat)
    requires Forest(p, roles) && root < MAX_USER_PT && roles[root].Top? && n <= 3
    requires Route(p, root, page, n).Some?
    ensures var t := Route(p, root, page, n).value;
            LevelOf(roles[t]) == 4 - n && p.tableOwner[t] == p.tableOwner[root]
    decreases n
  {
    if n > 0 {
      RouteLevel(p, roles, root, page, n - 1);
      var t := Route(p, root, page, n - 1).value;
      assert UpperEntryOk(p, roles, t, Index(page, 5 - n));
    }
  }

  /** A table is reached in one way only: same root, same indices. */
  lemma {:induction false} RouteUnique(p: Pools, roles: seq<Role>, root: nat, page: nat, root': nat, page': nat, n: nat)
    requires Forest(p, roles) && root < MAX_USER_PT && root' < MAX_USER_PT && roles[root].Top? && roles[root'].Top? && n <= 3
    requires Route(p, root, page, n).Some? && Route(p, root', page', n) == Route(p, root, page, n)
    ensures root == root' && (n >= 1 ==> Index(page, 4) == Index(page', 4)) && (n >= 2 ==> Index(page, 3) == Index(page', 3))
    decreases n
  {
    if n > 0 {
      RouteLevel(p, roles, root, page, n - 1);
      RouteLevel(p, roles, root', page', n - 1);
      var t, t' := Route(p, root, page, n - 1).value, Route(p, root', page', n - 1).value;
      assert UpperEntryOk(p, roles, t, Index(page, 5 - n));
      assert UpperEntryOk(p, roles, t', Index(page', 5 - n));
      RouteUnique(p, roles, root, page, root', page', n - 1);
    }
  }

  /** Every entry on a route grants all rights. */
  lemma {:induction false} RouteGrants(p: Pools, roles: seq<Role>, root: nat, page: nat, n: nat)
    requires Forest(p, roles) && root < MAX_USER_PT && roles[root].Top? && n <= 3
    requires Route(p, root, page, n).Some?
    ensures RouteRights(p, root, page, n) == Rights(true, true, true)
    decreases n
  {
    if n > 0 {
      RouteGrants(p, roles, root, page, n - 1);
      RouteLevel(p, roles, root, page, n - 1);
      var t := Route(p, root, page, n - 1).value;
      assert UpperEntryOk(p, roles, t, Index(page, 5 - n));
    }
  }

  lemma {:induction false} Halve(page: nat)
    requires page < PAGES
    ensures page / 0x800_0000 == Index(page, 4)
    ensures page / 0x4_0000 == 512 * Index(page, 4) + Index(page, 3)
    ensures page / 512 == 512 * (page / 0x4_0000) + Index(page, 2)
    ensures page == 512 * (page / 512) + Index(page, 1)
  {
    var a, b := page / 512, page / 0x4_0000;
    assert a / 512 == b && b / 512 == page / 0x800_0000;
  }

  /** Pages are told apart by their four indices. */
  lemma {:induction false} IndicesDiffer(page: nat, page': nat)
    requires page < PAGES && page' < PAGES
    requires Index(page, 4) == Index(page', 4) && Index(page, 3) == Index(page', 3)
    requires Index(page, 2) == Index(page', 2) && Index(page, 1) == Index(page', 1)
    ensures page == page'
  {
    Halve(page);
    Halve(page');
  }

  // ---- a walk reads few entries ----

  /** q agrees with p on every table of level 3 and 4. */
  ghost predicate SameAbove(p: Pools, q: Pools, roles: seq<Role>) {
    Sized(p) && Sized(q) && |roles| == MAX_USER_PT
    && forall t :: 0 <= t < MAX_USER_PT && LevelOf(roles[t]) >= 3 ==> q.tables[t] == p.tables[t]
  }

  lemma {:induction false} RouteSame(p: Pools, q: Pools, roles: seq<Role>, root: nat, page: nat, n: nat)
    requires Forest(p, roles) && SameAbove(p, q, roles) && root < MAX_USER_PT && roles[root].Top? && n <= 2
    ensures Route(q, root, page, n) == Route(p, root, page, n)
    ensures RouteRights(q, root, page, n) == RouteRights(p, root, page, n)
    decreases n
  {
    if n > 0 {
      RouteSame(p, q, roles, root, page, n - 1);
      if Route(p, root, page, n - 1).Some? {
        RouteLevel(p, roles, root, page, n - 1);
      }
    }
  }

  function LeafWalk(l: Pte): Walked {
    if l == EMPTY then Unmapped else Mapped(l.frame, Rights(l.write, true, !l.nx))
  }

  /** In a forest an entry of a third-level table is empty, a supervisor mapping, or leads
      to a leaf table; and the walk follows it. */
  lemma {:induction false} WalkShape(p: Pools, roles: seq<Role>, root: nat, page: nat)
    requires Forest(p, roles) && root < MAX_USER_PT && roles[root].Top?
    ensures Route(p, root, page, 2) == None ==> Walk(p, root, page) == Unmapped
    ensures Route(p, root, page, 2).Some? ==>
              var pd := Route(p, root, page, 2).value;
              var e := Entry(p, pd, Index(page, 2));
              && LevelOf(roles[pd]) == 2 && p.tableOwner[pd] == p.tableOwner[root]
              && (|| (e == EMPTY && Walk(p, root, page) == Unmapped)
                  || (e.huge && e.frame.Phys? && e == KernelPte(e.frame.addr)
                      && Walk(p, root, page) == Mapped(Phys(e.frame.addr + Index(page, 1) * PAGE), Rights(true, false, true)))
                  || (e.frame.TableFrame? && e.frame.t < MAX_USER_PT && e == TablePte(e.frame.t)
                      && roles[e.frame.t] == Below(1, pd, Index(page, 2)) && p.tableOwner[e.frame.t] == p.tableOwner[root]
                      && Walk(p, root, page) == LeafWalk(Entry(p, e.frame.t, Index(page, 1)))))
  {
    if Route(p, root, page, 2).Some? {
      RouteLevel(p, roles, root, page, 2);
      RouteGrants(p, roles, root, page, 2);
      var pd := Route(p, root, page, 2).value;
      var e := Entry(p, pd, Index(page, 2));
      assert UpperEntryOk(p, roles, pd, Index(page, 2));
      assert Route(p, root, page, 3) == Child(p, e);
      if e != EMPTY && !e.huge {
        RouteGrants(p, roles, root, page, 3);
        assert LeafEntryOk(p, e.frame.t, Index(page, 1));
      }
    }
  }

  // ---- map_pt_flags ----

  /** The roles after a mapping: a freshly taken table hangs below the entry it fills. */
  function MapRoles(p: Pools, roles: seq<Role>, root: nat, page: nat): seq<Role>
    requires Sized(p) && root < MAX_USER_PT && |roles| == MAX_USER_PT
  {
    match Route(p, root, page, 2)
    case None => roles
    case Some(pd) =>
      var f := FirstFree(p.tableOwner);
      if Entry(p, pd, Index(page, 2)).present || Entry(p, pd, Index(page, 2)).huge || f == |p.tableOwner| then roles
      else roles[f := Below(1, pd, Index(page, 2))]
  }

  /** The data page and the flags a mapping call is made with. */
  ghost predicate Mappable(p: Pools, root: nat, owner: int, frame: Frame, write: bool, nx: bool)
    requires Sized(p) && root < MAX_USER_PT
  {
    && frame.DataFrame? && frame.d < MAX_USER_DATA && (write ==> nx)
    && p.tableOwner[root] == Tag(owner) && p.dataOwner[frame.d] == Tag(owner)
  }

  /** What a successful mapping did to the tables, seen from below. */
  ghost predicate MapEffect(p: Pools, q: Pools, roles: seq<Role>, pd: nat, i2: nat, pt: nat, i1: nat, leaf: Pte)
  {
    && Sized(p) && Sized(q) && pd < MAX_USER_PT && pt < MAX_USER_PT && i1 < ENTRIES && i2 < ENTRIES && pt != pd
    && q.data == p.data && q.dataOwner == p.dataOwner
    && (forall t :: 0 <= t < MAX_USER_PT && t != pd && t != pt ==> q.tables[t] == p.tables[t])
    && q.tables[pd] == p.tables[pd][i2 := TablePte(pt)]
    && (if Entry(p, pd, i2).present then q.tables[pt] == p.tables[pt][i1 := leaf] && q.tableOwner == p.tableOwner
        else q.tables[pt] == ZeroTable()[i1 := leaf] && p.tableOwner[pt] == 0)
  }

  lemma {:induction false} MapPtEffect(p: Pools, roles: seq<Role>, owner: int, root: nat, page: nat, frame: Frame, write: bool, nx: bool)
    requires Forest(p, roles) && root < MAX_USER_PT && roles[root].Top?
    ensures var (q, s) := MapPt(p, owner, root, page, frame, write, nx);
            if s != 0 then q == p
            else
              && Route(p, root, page, 2).Some?
              && var pd := Route(p, root, page, 2).value;
                 var e := Entry(p, pd, Index(page, 2));
                 var pt := if e.frame.TableFrame? then e.frame.t else FirstFree(p.tableOwner);
                 && !e.huge && LevelOf(roles[pd]) == 2 && (e.frame.TableFrame? <==> e.present) && (e.present || e == EMPTY)
                 && MapEffect(p, q, roles, pd, Index(page, 2), pt, Index(page, 1), LeafPte(frame, write, nx))
                 && (e.present ==> roles[pt] == Below(1, pd, Index(page, 2)))
                 && (!e.present ==> roles[pt] == Unused && q.tableOwner == p.tableOwner[pt := Tag(owner)])
  {
    hide Walk, Forest;
    ForestSized(p, roles);
    WalkShape(p, roles, root, page);
    var f := FirstFree(p.tableOwner);
    if f < MAX_USER_PT { assert RoleOk(p, roles, f); }
    if Route(p, root, page, 2).Some? {
      var pd := Route(p, root, page, 2).value;
      var e := Entry(p, pd, Index(page, 2));
      assert RoleOk(p, roles, pd);
      if e.present && !e.huge {
        assert p.tables[pd][Index(page, 2) := e] == p.tables[pd];
      }
    }
  }

  lemma {:induction false} ForestSized(p: Pools, roles: seq<Role>)
    requires Forest(p, roles)
    ensures Sized(p) && |roles| == MAX_USER_PT && forall t :: 0 <= t < MAX_USER_PT ==> RoleOk(p, roles, t)
  {
  }

  /** What is left of the forest invariant for the entries of table t. */
  ghost predicate TableOk(p: Pools, roles: seq<Role>, t: nat)
    requires Sized(p) && |roles| == MAX_USER_PT && t < MAX_USER_PT
  {
    && (LevelOf(roles[t]) >= 2 ==> forall i :: 0 <= i < ENTRIES ==> UpperEntryOk(p, roles, t, i))
    && (LevelOf(roles[t]) == 1 ==> forall i :: 0 <= i < ENTRIES ==> LeafEntryOk(p, t, i))
  }

  lemma {:induction false} ForestTables(p: Pools, roles: seq<Role>)
    requires Sized(p) && |roles| == MAX_USER_PT && forall t :: 0 <= t < MAX_USER_PT ==> RoleOk(p, roles, t)
    ensures Forest(p, roles) <==> forall t :: 0 <= t < MAX_USER_PT ==> TableOk(p, roles, t)
  {
    if forall t :: 0 <= t < MAX_USER_PT ==> TableOk(p, roles, t) {
      forall t, i | 0 <= t < MAX_USER_PT && LevelOf(roles[t]) >= 2 && 0 <= i < ENTRIES ensures UpperEntryOk(p, roles, t, i) {
        assert TableOk(p, roles, t);
      }
      forall t, i | 0 <= t < MAX_USER_PT && LevelOf(roles[t]) == 1 && 0 <= i < ENTRIES ensures LeafEntryOk(p, t, i) {
        assert TableOk(p, roles, t);
      }
    }
  }

  /** Mapping keeps the forest. */
  lemma {:induction false} MapPtForest(p: Pools, roles: seq<Role>, owner: int, root: nat, page: nat, frame: Frame, write: bool, nx: bool)
    requires Forest(p, roles) && root < MAX_USER_PT && roles[root].Top? && Mappable(p, root, owner, frame, write, nx)
    ensures var (q, s) := MapPt(p, owner, root, page, frame, write, nx);
            Forest(q, if s == 0 then MapRoles(p, roles, root, page) else roles)
  {
    hide Forest, Route, TableOk, MapPt;
    ForestSized(p, roles);
    var (q, s) := MapPt(p, owner, root, page, frame, write, nx);
    MapPtEffect(p, roles, owner, root, page, frame, write, nx);
    if s == 0 {
      var roles' := MapRoles(p, roles, root, page);
      var pd := Route(p, root, page, 2).value;
      var e := Entry(p, pd, Index(page, 2));
      var pt := if e.frame.TableFrame? then e.frame.t else FirstFree(p.tableOwner);
      WalkShape(p, roles, root, page);
      ForestTables(p, roles);
      assert roles' == if e.present then roles else roles[pt := Below(1, pd, Index(page, 2))];
      forall t | 0 <= t < MAX_USER_PT ensures RoleOk(q, roles', t) && TableOk(q, roles', t) {
        MappedTableOk(p, q, roles, roles', t, pd, Index(page, 2), pt, Index(page, 1), LeafPte(frame, write, nx), owner);
      }
      ForestTables(q, roles');
    }
  }

  lemma {:induction false} MappedTableOk(p: Pools, q: Pools, roles: seq<Role>, roles': seq<Role>, t: nat,
                                         pd: nat, i2: nat, pt: nat, i1: nat, leaf: Pte, owner: int)
    requires MapEffect(p, q, roles, pd, i2, pt, i1, leaf) && |roles| == MAX_USER_PT && t < MAX_USER_PT
    requires forall u :: 0 <= u < MAX_USER_PT ==> RoleOk(p, roles, u)
    requires TableOk(p, roles, t) && TableOk(p, roles, pt)
    requires LevelOf(roles[pd]) == 2 && p.tableOwner[pd] == Tag(owner)
    requires leaf.frame.DataFrame? && leaf == LeafPte(leaf.frame, leaf.write, leaf.nx) && (leaf.write ==> leaf.nx)
    requires leaf.frame.d < MAX_USER_DATA && p.dataOwner[leaf.frame.d] == Tag(owner)
    requires if Entry(p, pd, i2).present
             then roles' == roles && roles[pt] == Below(1, pd, i2) && p.tableOwner[pt] == Tag(owner)
             else roles' == roles[pt := Below(1, pd, i2)] && roles[pt] == Unused && q.tableOwner == p.tableOwner[pt := Tag(owner)]
    ensures RoleOk(q, roles', t) && TableOk(q, roles', t)
  {
    assert RoleOk(p, roles, t) && RoleOk(p, roles, pt) && RoleOk(p, roles, pd);
    if LevelOf(roles'[t]) >= 2 {
      forall i | 0 <= i < ENTRIES ensures UpperEntryOk(q, roles', t, i) {
        assert UpperEntryOk(p, roles, t, i);
      }
    } else if LevelOf(roles'[t]) == 1 {
      forall i | 0 <= i < ENTRIES ensures LeafEntryOk(q, t, i) {
        if LevelOf(roles[t]) == 1 { assert LeafEntryOk(p, t, i); }
      }
    }
  }

  /** The table walk as a map: after a successful mapping the page yields the frame and
      the flags given, and the walk of every other page, in this and in every other
      program's tables, is what it was. */
  lemma {:induction false} MapPtWalk(p: Pools, roles: seq<Role>, owner: int, root: nat, page: nat, frame: Frame, write: bool, nx: bool,
                                     root': nat, page': nat)
    requires Forest(p, roles) && root < MAX_USER_PT && roles[root].Top? && Mappable(p, root, owner, frame, write, nx)
    requires root' < MAX_USER_PT && roles[root'].Top? && page < PAGES && page' < PAGES
    ensures var (q, s) := MapPt(p, owner, root, page, frame, write, nx);
            Walk(q, root', page') == if s == 0 && root' == root && page' == page then Mapped(frame, Rights(write, true, !nx))
                                     else Walk(p, root', page')
  {
    hide Forest, Walk, Route, RouteRights, MapPt, Index;
    ForestSized(p, roles);
    var (q, s) := MapPt(p, owner, root, page, frame, write, nx);
    MapPtEffect(p, roles, owner, root, page, frame, write, nx);
    if s == 0 {
      MapPtForest(p, roles, owner, root, page, frame, write, nx);
      var roles' := MapRoles(p, roles, root, page);
      var pd := Route(p, root, page, 2).value;
      assert SameAbove(p, q, roles);
      RouteSame(p, q, roles, root', page', 2);
      RouteSame(p, q, roles, root, page, 2);
      WalkShape(p, roles, root', page');
      WalkShape(q, roles', root', page');
      if Route(p, root', page', 2) == Some(pd) && Index(page', 2) == Index(page, 2) {
        RouteUnique(p, roles, root, page, root', page', 2);
        if Index(page', 1) == Index(page, 1) {
          IndicesDiffer(page, page');
        }
      }
    }
  }
}
