/**
 Page tables as the processor reads them: 64-bit words at physical addresses. The record
 form of an entry is read back from its word, and a walk that sees nothing but words finds
 what the walk over records finds.
 */
module PageWords {
  import opened Common
  import opened PageTables
  import opened PoolProofs
  import opened Elf

  const PRESENT: nat := 1
  const WRITE: nat := 2
  const USER: nat := 4
  const HUGE: nat := 128
  const NX: nat := 0x8000_0000_0000_0000
  const FIELD: nat := 0x100_0000_0000  // page numbers an entry can hold
  const LARGE: nat := 0x20_0000        // size of a page mapped by a third-level entry

  /** Where the pages of both pools lie in physical memory. */
  datatype Placement = Placement(tables: seq<nat>, data: seq<nat>)

  function AddressOf(f: Frame, pl: Placement): nat {
    match f
    case Phys(a) => a
    case TableFrame(t) => if t < |pl.tables| then pl.tables[t] else 0
    case DataFrame(d) => if d < |pl.data| then pl.data[d] else 0
  }

  function Flag(b: bool, w: nat): nat { if b then w else 0 }

  function FlagBits(e: Pte): nat {
    Flag(e.present, PRESENT) + Flag(e.write, WRITE) + Flag(e.user, USER) + Flag(e.huge, HUGE)
  }

  /** The word `set_page_entry` stores: the address with the flags around it. */
  function WordOf(e: Pte, pl: Placement): nat {
    AddressOf(e.frame, pl) + FlagBits(e) + Flag(e.nx, NX)
  }

  /** A word masked with 0x000FFFFFFFFFF000. */
  function Field(w: nat): nat { w / PAGE % FIELD * PAGE }

  predicate Bit(w: nat, b: nat)
    requires b > 0
  {
    w / b % 2 == 1
  }

  // ---- the walk over words ----

  /** The words of the table that lies at each physical address. */
  type Words = map<nat, seq<nat>>

  datatype Found = Nowhere | At(addr: nat, rights: Rights)

  /** Entry i of the table at an address. */
  function WordAt(m: Words, a: nat, i: nat): nat {
    if a in m && i < |m[a]| then m[a][i] else 0
  }

  function RestrictWord(r: Rights, w: nat): Rights {
    Rights(r.write && Bit(w, WRITE), r.user && Bit(w, USER), r.exec && !Bit(w, NX))
  }

  /** The table an entry leads to. */
  function Next(m: Words, w: nat): Option<nat> {
    if Bit(w, PRESENT) && !Bit(w, HUGE) && Field(w) in m then Some(Field(w)) else None
  }

  /** Four levels from the root at `cr3`: shift, mask, follow. */
  function WordWalk(m: Words, cr3: nat, page: nat): Found {
    var w4 := WordAt(m, cr3, page / 0x800_0000 % 512);
    var r4 := RestrictWord(Rights(true, true, true), w4);
    match Next(m, w4)
    case None => Nowhere
    case Some(pdpt) =>
      var w3 := WordAt(m, pdpt, page / 0x4_0000 % 512);
      var r3 := RestrictWord(r4, w3);
      match Next(m, w3)
      case None => Nowhere
      case Some(pd) =>
        var w2 := WordAt(m, pd, page / 512 % 512);
        var r2 := RestrictWord(r3, w2);
        if Bit(w2, PRESENT) && Bit(w2, HUGE) then At(w2 / LARGE % (FIELD / 512) * LARGE + page % 512 * PAGE, r2)
        else
          match Next(m, w2)
          case None => Nowhere
          case Some(pt) =>
            var w1 := WordAt(m, pt, page % 512);
            if Bit(w1, PRESENT) then At(Field(w1), RestrictWord(r2, w1)) else Nowhere
  }

  // ---- tables as words ----

  predicate Aligned(a: nat) { a % PAGE == 0 && a < FIELD * PAGE }

  /** Both pools lie on pages of their own, the tables apart from the data pages and from
      the 4 MB that are the supervisor's. */
  ghost predicate Places(pl: Placement) {
    && |pl.tables| == MAX_USER_PT && |pl.data| == MAX_USER_DATA
    && (forall t :: 0 <= t < MAX_USER_PT ==> Aligned(pl.tables[t]) && pl.tables[t] != 0 && pl.tables[t] != LARGE)
    && (forall t, u :: 0 <= t < u < MAX_USER_PT ==> pl.tables[t] != pl.tables[u])
    && (forall d :: 0 <= d < MAX_USER_DATA ==> Aligned(pl.data[d]) && pl.data[d] !in pl.tables)
  }

  /** An entry whose word says what the record says: its address fits the field, and it is a
      table's exactly when the record names a table. */
  ghost predicate Fits(e: Pte, pl: Placement) {
    && Aligned(AddressOf(e.frame, pl))
    && (e.frame.TableFrame? ==> e.frame.t < |pl.tables|)
    && (!e.frame.TableFrame? && e.present ==> AddressOf(e.frame, pl) !in pl.tables)
    && (e.huge ==> e.frame.Phys? && e.frame.addr % LARGE == 0)
  }

  ghost predicate Fitting(p: Pools, pl: Placement) {
    && Places(pl) && Sized(p)
    && forall t, i :: 0 <= t < |p.tables| && 0 <= i < ENTRIES ==> Fits(p.tables[t][i], pl)
  }

  function TableWords(t: Table, pl: Placement): (w: seq<nat>)
    ensures |w| == ENTRIES
  {
    seq(ENTRIES, i requires 0 <= i < ENTRIES => WordOf(t[i], pl))
  }

  /** Physical memory, as far as it holds tables. */
  ghost function Image(p: Pools, pl: Placement): (m: Words)
    requires Fitting(p, pl)
    ensures forall t :: 0 <= t < |p.tables| ==> pl.tables[t] in m && m[pl.tables[t]] == TableWords(p.tables[t], pl)
    ensures forall a :: a in m ==> a in pl.tables
  {
    map t | 0 <= t < |p.tables| :: pl.tables[t] := TableWords(p.tables[t], pl)
  }

  // ---- reading a word ----

  lemma {:induction false} QuotientIs(w: nat, d: nat, q: nat, r: nat)
    requires d > 0 && r < d && w == q * d + r
    ensures w / d == q && w % d == r
  {
    if w / d < q { MulMono(w / d + 1, d, q, d); }
    if w / d > q { MulMono(q + 1, d, w / d, d); }
  }

  /** Flags below bit 12, a page number above them, one bit on top. */
  lemma {:induction false} PartsRead(n: nat, f: nat, top: nat)
    requires n < FIELD && f < PAGE && top <= 1
    ensures var w := n * PAGE + f + top * NX;
            Field(w) == n * PAGE && w / NX % 2 == top && w % PAGE == f
  {
    var w := n * PAGE + f + top * NX;
    assert NX == 0x800 * FIELD * PAGE;
    QuotientIs(w, PAGE, n + top * (0x800 * FIELD), f);
    QuotientIs(n + top * (0x800 * FIELD), FIELD, top * 0x800, n);
    QuotientIs(w, NX, top, n * PAGE + f);
  }

  lemma {:induction false} LowBit(w: nat, b: nat, k: nat)
    requires b > 0 && PAGE == 2 * k * b
    ensures w / b % 2 == w % PAGE / b % 2
  {
    var q, r := w / PAGE, w % PAGE;
    assert w == q * PAGE + r;
    Regroup(q, k, b);
    QuotientIs(w, b, q * (2 * k) + r / b, r % b);
    QuotientIs(q * (2 * k) + r / b, 2, q * k + r / b / 2, r / b % 2);
  }

  lemma {:induction false} Regroup(q: nat, k: nat, b: nat)
    ensures q * (2 * k * b) == q * (2 * k) * b && q * (2 * k) == q * k * 2
  {
  }

  lemma {:induction false} LowBits(w: nat)
    ensures w / 1 % 2 == w % PAGE / 1 % 2 && w / 2 % 2 == w % PAGE / 2 % 2
    ensures w / 4 % 2 == w % PAGE / 4 % 2 && w / 128 % 2 == w % PAGE / 128 % 2
  {
    LowBit(w, 1, 2048);
    LowBit(w, 2, 1024);
    LowBit(w, 4, 512);
    LowBit(w, 128, 16);
  }

  lemma {:induction false} FlagsRead(e: Pte)
    ensures var f := FlagBits(e);
            f < PAGE && Bit(f, PRESENT) == e.present && Bit(f, WRITE) == e.write && Bit(f, USER) == e.user && Bit(f, HUGE) == e.huge
  {
  }

  /** Every part of an entry is read back from its word. */
  lemma {:induction false} WordReads(e: Pte, pl: Placement)
    requires Aligned(AddressOf(e.frame, pl))
    ensures var w := WordOf(e, pl);
            && Field(w) == AddressOf(e.frame, pl)
            && Bit(w, PRESENT) == e.present && Bit(w, WRITE) == e.write && Bit(w, USER) == e.user
            && Bit(w, HUGE) == e.huge && Bit(w, NX) == e.nx
  {
    hide AddressOf, FlagBits, Field;
    var a := AddressOf(e.frame, pl);
    FlagsRead(e);
    PartsRead(a / PAGE, FlagBits(e), if e.nx then 1 else 0);
    LowBits(WordOf(e, pl));
  }

  /** The same bit by bit, as the architecture numbers them: present 0, writable 1, user 2, large
      7, not executable 63, and the address in bits 12 to 51. */
  lemma {:induction false} WordBits(e: Pte, pl: Placement)
    requires Aligned(AddressOf(e.frame, pl))
    ensures var w := WordOf(e, pl);
            && w < 0x1_0000_0000_0000_0000
            && (w % 2 == 1 <==> e.present) && (w / 2 % 2 == 1 <==> e.write) && (w / 4 % 2 == 1 <==> e.user)
            && (w / 128 % 2 == 1 <==> e.huge) && (w / 0x8000_0000_0000_0000 % 2 == 1 <==> e.nx)
            && w / 4096 % 0x100_0000_0000 * 4096 == AddressOf(e.frame, pl)
  {
    hide AddressOf, FlagBits;
    FlagsRead(e);
    WordReads(e, pl);
  }

  /** And the address of a 2 MB page. */
  lemma {:induction false} LargeReads(e: Pte, pl: Placement)
    requires Fits(e, pl) && e.huge
    ensures WordOf(e, pl) / LARGE % (FIELD / 512) * LARGE == e.frame.addr
  {
    hide FlagBits;
    var a := e.frame.addr;
    var top := if e.nx then 1 else 0;
    FlagsRead(e);
    assert NX == 0x800 * (FIELD / 512) * LARGE;
    assert WordOf(e, pl) == a + FlagBits(e) + top * NX;
    QuotientIs(WordOf(e, pl), LARGE, a / LARGE + top * (0x800 * (FIELD / 512)), FlagBits(e));
    QuotientIs(a / LARGE + top * (0x800 * (FIELD / 512)), FIELD / 512, top * 0x800, a / LARGE);
  }

  // ---- the two walks ----

  function Physical(w: Walked, pl: Placement): Found {
    match w
    case Unmapped => Nowhere
    case Mapped(frame, rights) => At(AddressOf(frame, pl), rights)
  }

  lemma {:induction false} WordIs(p: Pools, pl: Placement, t: nat, i: nat)
    requires Fitting(p, pl) && t < |p.tables| && i < ENTRIES
    ensures WordAt(Image(p, pl), pl.tables[t], i) == WordOf(Entry(p, t, i), pl) && Fits(Entry(p, t, i), pl)
  {
    hide WordOf, Fits;
  }

  lemma {:induction false} NextIs(p: Pools, pl: Placement, e: Pte)
    requires Fitting(p, pl) && Fits(e, pl)
    ensures Next(Image(p, pl), WordOf(e, pl))
            == match Child(p, e) { case None => None case Some(c) => Some(pl.tables[c]) }
  {
    hide WordOf, Field, Bit;
    WordReads(e, pl);
  }

  lemma {:induction false} RightsAre(r: Rights, e: Pte, pl: Placement)
    requires Fits(e, pl)
    ensures RestrictWord(r, WordOf(e, pl)) == Restrict(r, e)
  {
    hide WordOf, Bit, Field;
    WordReads(e, pl);
  }

  /** One step of both walks. */
  lemma {:induction false} StepIs(p: Pools, pl: Placement, t: nat, i: nat, r: Rights)
    requires Fitting(p, pl) && t < |p.tables| && i < ENTRIES
    ensures var w := WordAt(Image(p, pl), pl.tables[t], i);
            && Next(Image(p, pl), w) == match Child(p, Entry(p, t, i)) { case None => None case Some(c) => Some(pl.tables[c]) }
            && RestrictWord(r, w) == Restrict(r, Entry(p, t, i))
  {
    hide WordOf, Bit, Field, Next, Child, Fits, Fitting;
    WordIs(p, pl, t, i);
    NextIs(p, pl, Entry(p, t, i));
    RightsAre(r, Entry(p, t, i), pl);
  }

  /** The end of both walks below a page directory. */
  function WalkBelow(p: Pools, pd: nat, page: nat, r: Rights): Walked
    requires pd < |p.tables|
  {
    var e := Entry(p, pd, Index(page, 2));
    if e.present && e.huge then
      if e.frame.Phys? then Mapped(Phys(e.frame.addr + Index(page, 1) * PAGE), Restrict(r, e)) else Unmapped
    else
      match Child(p, e)
      case None => Unmapped
      case Some(pt) =>
        var l := Entry(p, pt, Index(page, 1));
        if l.present then Mapped(l.frame, Restrict(Restrict(r, e), l)) else Unmapped
  }

  function WordsBelow(m: Words, pd: nat, page: nat, r: Rights): Found {
    var w2 := WordAt(m, pd, page / 512 % 512);
    if Bit(w2, PRESENT) && Bit(w2, HUGE) then
      At(w2 / LARGE % (FIELD / 512) * LARGE + page % 512 * PAGE, RestrictWord(r, w2))
    else
      match Next(m, w2)
      case None => Nowhere
      case Some(pt) =>
        var w1 := WordAt(m, pt, page % 512);
        if Bit(w1, PRESENT) then At(Field(w1), RestrictWord(RestrictWord(r, w2), w1)) else Nowhere
  }

  lemma {:induction false} BelowIs(p: Pools, pl: Placement, pd: nat, page: nat, r: Rights)
    requires Fitting(p, pl) && pd < |p.tables|
    ensures WordsBelow(Image(p, pl), pl.tables[pd], page, r) == Physical(WalkBelow(p, pd, page, r), pl)
  {
    hide WordOf, Bit, Field, Next, Fitting, RestrictWord, WordAt;
    var e := Entry(p, pd, Index(page, 2));
    WordIs(p, pl, pd, Index(page, 2));
    StepIs(p, pl, pd, Index(page, 2), r);
    WordReads(e, pl);
    if e.present && e.huge {
      LargeReads(e, pl);
    } else if Child(p, e).Some? {
      var pt := Child(p, e).value;
      WordIs(p, pl, pt, Index(page, 1));
      StepIs(p, pl, pt, Index(page, 1), Restrict(r, e));
      WordReads(Entry(p, pt, Index(page, 1)), pl);
    }
  }

  lemma {:induction false} WalkSplits(p: Pools, root: nat, page: nat)
    requires root < |p.tables|
    ensures var e4 := Entry(p, root, Index(page, 4));
            var r4 := Restrict(Rights(true, true, true), e4);
            Walk(p, root, page) == match Child(p, e4) {
              case None => Unmapped
              case Some(pdpt) =>
                var e3 := Entry(p, pdpt, Index(page, 3));
                match Child(p, e3) {
                  case None => Unmapped
                  case Some(pd) => WalkBelow(p, pd, page, Restrict(r4, e3))
                }
            }
  {
    hide Child, Restrict, Index;
    assert Route(p, root, page, 0) == Some(root);
    assert Route(p, root, page, 1) == Child(p, Entry(p, root, Index(page, 4)));
    assert RouteRights(p, root, page, 0) == Rights(true, true, true);
  }

  /** A processor that reads words at physical addresses finds what the records say: the
      same page with the same rights, or nothing. */
  lemma {:induction false} WordWalkIs(p: Pools, pl: Placement, root: nat, page: nat)
    requires Fitting(p, pl) && root < |p.tables|
    ensures WordWalk(Image(p, pl), pl.tables[root], page) == Physical(Walk(p, root, page), pl)
  {
    hide Bit, Field, Next, Fitting, RestrictWord, Restrict, WordAt, Walk, WalkBelow, Child;
    WalkSplits(p, root, page);
    StepIs(p, pl, root, Index(page, 4), Rights(true, true, true));
    var e4 := Entry(p, root, Index(page, 4));
    var r4 := Restrict(Rights(true, true, true), e4);
    if Child(p, e4).Some? {
      var pdpt := Child(p, e4).value;
      StepIs(p, pl, pdpt, Index(page, 3), r4);
      var e3 := Entry(p, pdpt, Index(page, 3));
      if Child(p, e3).Some? { BelowIs(p, pl, Child(p, e3).value, page, Restrict(r4, e3)); }
    }
  }

  // ---- every operation stores words that fit ----

  function Store(m: Words, a: nat, i: nat, w: nat): Words {
    if a in m && i < |m[a]| then
      var words: seq<nat> := m[a][i := w];
      m[a := words]
    else m
  }

  /** `set_page_entry` is one store of a word. */
  lemma {:induction false} SetEntryStores(p: Pools, pl: Placement, t: nat, i: nat, e: Pte)
    requires Fitting(p, pl) && t < MAX_USER_PT && i < ENTRIES && Fits(e, pl)
    ensures Fitting(SetEntry(p, t, i, e), pl)
    ensures Image(SetEntry(p, t, i, e), pl)
            == Store(Image(p, pl), pl.tables[t], i, WordOf(e, pl))
  {
    hide WordOf, Fits;
    var q := SetEntry(p, t, i, e);
    assert TableWords(q.tables[t], pl) == TableWords(p.tables[t], pl)[i := WordOf(e, pl)];
    assert forall u :: 0 <= u < MAX_USER_PT && u != t ==> q.tables[u] == p.tables[u];
  }

  lemma {:induction false} EmptyFits(pl: Placement)
    ensures Fits(EMPTY, pl)
  {
  }

  lemma {:induction false} AllocTableFits(p: Pools, pl: Placement, owner: int)
    requires Fitting(p, pl) && AllocTable(p, owner).Some?
    ensures Fitting(AllocTable(p, owner).value.0, pl)
  {
    hide Fits;
    EmptyFits(pl);
  }

  lemma {:induction false} TableFits(pl: Placement, t: nat)
    requires Places(pl) && t < MAX_USER_PT
    ensures Fits(TablePte(t), pl)
  {
  }

  lemma {:induction false} KernelFits(pl: Placement)
    requires Places(pl)
    ensures Fits(KernelPte(0), pl) && Fits(KernelPte(0x20_0000), pl)
  {
  }

  lemma {:induction false} LeafFits(pl: Placement, d: nat, write: bool, nx: bool)
    requires Places(pl) && d < MAX_USER_DATA
    ensures Fits(LeafPte(DataFrame(d), write, nx), pl)
  {
  }

  lemma {:induction false} CreateFits(p: Pools, pl: Placement, owner: int)
    requires Fitting(p, pl)
    ensures Fitting(CreateTables(p, owner).0, pl)
  {
    hide Fitting, Fits, Places, AllocTable, SetEntry;
    FittingPlaces(p, pl);
    if AllocTable(p, owner).Some? {
      AllocTableFits(p, pl, owner);
      var (p1, pml4) := AllocTable(p, owner).value;
      if AllocTable(p1, owner).Some? {
        AllocTableFits(p1, pl, owner);
        var (p2, pdpt) := AllocTable(p1, owner).value;
        if AllocTable(p2, owner).Some? {
          AllocTableFits(p2, pl, owner);
          var (p3, pd) := AllocTable(p2, owner).value;
          FourStores(p3, pl, pml4, pdpt, pd);
        }
      }
    }
  }

  lemma {:induction false} FittingPlaces(p: Pools, pl: Placement)
    requires Fitting(p, pl)
    ensures Places(pl) && Sized(p)
  {
  }

  lemma {:induction false} FourStores(p: Pools, pl: Placement, pml4: nat, pdpt: nat, pd: nat)
    requires Fitting(p, pl) && Places(pl) && Sized(p) && pml4 < MAX_USER_PT && pdpt < MAX_USER_PT && pd < MAX_USER_PT
    ensures var q := SetEntry(SetEntry(p, pml4, 0, TablePte(pdpt)), pdpt, 0, TablePte(pd));
            Fitting(SetEntry(SetEntry(q, pd, 0, KernelPte(0)), pd, 1, KernelPte(0x20_0000)), pl)
  {
    hide Fitting, Fits, Places, SetEntry;
    TableFits(pl, pdpt);
    TableFits(pl, pd);
    KernelFits(pl);
    SetEntryStores(p, pl, pml4, 0, TablePte(pdpt));
    var q1 := SetEntry(p, pml4, 0, TablePte(pdpt));
    SetEntryStores(q1, pl, pdpt, 0, TablePte(pd));
    var q := SetEntry(q1, pdpt, 0, TablePte(pd));
    SetEntryStores(q, pl, pd, 0, KernelPte(0));
    SetEntryStores(SetEntry(q, pd, 0, KernelPte(0)), pl, pd, 1, KernelPte(0x20_0000));
  }

  lemma {:induction false} MapPtFits(p: Pools, pl: Placement, owner: int, root: nat, page: nat, d: nat, write: bool, nx: bool)
    requires Fitting(p, pl) && root < MAX_USER_PT && d < MAX_USER_DATA
    ensures Sized(p) && Fitting(MapPt(p, owner, root, page, DataFrame(d), write, nx).0, pl)
  {
    hide Fitting, Fits, Places, AllocTable, SetEntry, Route, Index, Child;
    FittingPlaces(p, pl);
    LeafFits(pl, d, write, nx);
    var leaf := LeafPte(DataFrame(d), write, nx);
    if Route(p, root, page, 2).Some? {
      var pd := Route(p, root, page, 2).value;
      var e := Entry(p, pd, Index(page, 2));
      if !e.huge && e.present {
        if Child(p, e).Some? { SetEntryStores(p, pl, Child(p, e).value, Index(page, 1), leaf); }
      } else if !e.huge && AllocTable(p, owner).Some? {
        var (q, pt) := AllocTable(p, owner).value;
        AllocTableFits(p, pl, owner);
        TableFits(pl, pt);
        SetEntryStores(q, pl, pd, Index(page, 2), TablePte(pt));
        SetEntryStores(SetEntry(q, pd, Index(page, 2), TablePte(pt)), pl, pt, Index(page, 1), leaf);
      }
    }
  }

  lemma {:induction false} SameTablesFit(p: Pools, q: Pools, pl: Placement)
    requires Fitting(p, pl) && Sized(q) && q.tables == p.tables
    ensures Fitting(q, pl)
  {
    hide Fits;
  }

  lemma {:induction false} MapPagesFits(p: Pools, pl: Placement, owner: int, root: nat, page: nat, contents: seq<Page>, write: bool, nx: bool)
    requires Fitting(p, pl) && root < MAX_USER_PT
    ensures Sized(p) && Fitting(MapPages(p, owner, root, page, contents, write, nx).0, pl)
    decreases |contents|
  {
    hide Fitting, MapPt;
    FittingPlaces(p, pl);
    if contents != [] && AllocData(p, owner, contents[0]).Some? {
      var (q, d) := AllocData(p, owner, contents[0]).value;
      SameTablesFit(p, q, pl);
      MapPtFits(q, pl, owner, root, page, d, write, nx);
      var (u, s) := MapPt(q, owner, root, page, DataFrame(d), write, nx);
      if s == 0 { MapPagesFits(u, pl, owner, root, (page + 1) % PAGES, contents[1..], write, nx); }
    }
  }

  lemma {:induction false} SegmentFits(p: Pools, pl: Placement, owner: int, root: nat, s: Segment)
    requires Fitting(p, pl) && root < MAX_USER_PT
    ensures Sized(p) && Fitting(MapSegment(p, owner, root, s).0, pl)
  {
    hide Fitting, MapPages;
    FittingPlaces(p, pl);
    MapPagesFits(p, pl, owner, root, PageOf(s.vaddr), SegmentPages(s), s.write, !s.exec);
  }

  lemma {:induction false} CallFits(p: Pools, pl: Placement, owner: int, root: nat, c: MapCall)
    requires Fitting(p, pl) && root < MAX_USER_PT
    ensures Sized(p) && Fitting(Call(p, owner, root, c), pl)
  {
    hide Fitting, MapSegment;
    FittingPlaces(p, pl);
    match c
    case Rx(vaddr, bytes) => SegmentFits(p, pl, owner, root, RxSegment(vaddr, bytes));
    case Seg(s) => SegmentFits(p, pl, owner, root, s);
    case Rw(at, len, zeroFill) =>
      if zeroFill || len == 0 {
        SegmentFits(p, pl, owner, root, RwSegment(at, len));
      } else if AllocData(p, owner, ZeroPage()).Some? {
        SameTablesFit(p, AllocData(p, owner, ZeroPage()).value.0, pl);
      }
  }

  lemma {:induction false} CallsFit(p: Pools, pl: Placement, owner: int, root: nat, cs: seq<MapCall>)
    requires Fitting(p, pl) && root < MAX_USER_PT
    ensures Sized(p) && Fitting(Calls(p, owner, root, cs), pl)
    decreases |cs|
  {
    hide Fitting, Call;
    FittingPlaces(p, pl);
    if cs != [] {
      CallFits(p, pl, owner, root, cs[0]);
      CallsFit(Call(p, owner, root, cs[0]), pl, owner, root, cs[1..]);
    }
  }

  /** Freeing an owner's pages leaves every word as it is. */
  lemma {:induction false} ReleaseFits(p: Pools, pl: Placement, owner: int)
    requires Fitting(p, pl)
    ensures Sized(p) && Fitting(Release(p, owner), pl)
  {
    hide Fitting;
    FittingPlaces(p, pl);
    SameTablesFit(p, Release(p, owner), pl);
  }

  /** However an address space is filled: the words in memory lead the processor to no page
      that it may, as a user, both write and execute, and over the first 4 MB to the
      supervisor's identity map. */
  lemma {:induction false} WordsGuarded(p: Pools, roles: seq<Role>, pl: Placement, owner: int, cs: seq<MapCall>, g: nat)
    requires Forest(p, roles) && Fitting(p, pl) && CreateTables(p, owner).1.Some? && g < PAGES
    ensures var (q, root) := CreateTables(p, owner);
            Fitting(Calls(q, owner, root.value, cs), pl)
    ensures var (q, root) := CreateTables(p, owner);
            var f := WordWalk(Image(Calls(q, owner, root.value, cs), pl), pl.tables[root.value], g);
            && (f.At? && f.rights.user ==> !(f.rights.write && f.rights.exec))
            && (g < KERNEL_PAGES ==> f == At(g * PAGE, Rights(true, false, true)))
  {
    hide Forest, Fitting, CreateTables, Calls, Walk, WordWalk;
    FittingPlaces(p, pl);
    CreateFits(p, pl, owner);
    var q, root := CreateTables(p, owner).0, CreateTables(p, owner).1.value;
    CallsFit(q, pl, owner, root, cs);
    FittingPlaces(Calls(q, owner, root, cs), pl);
    CallsGuarded(p, roles, owner, cs, g);
    WordWalkIs(Calls(q, owner, root, cs), pl, root, g);
  }
}
