/**
 The program loader: ELF and flat images mapped into an address space, and what user
 code then reads there.
 */
module Elf {
  import opened Common
  import opened PageTables
  import opened PageProofs
  import opened PoolProofs

  const USER_CODE_VADDR: nat := 0x40_0000
  const EHDR_SIZE: nat := 64
  const PHDR_SIZE: nat := 56
  const PT_LOAD: nat := 1

  predicate IsFlat(image: seq<byte>) { |image| >= 4 && image[0] != 0x7F }

  /** `elf_is_valid` */
  predicate IsElf(image: seq<byte>) {
    && |image| >= EHDR_SIZE
    && image[0] == 0x7F && image[1] == 'E' as int && image[2] == 'L' as int && image[3] == 'F' as int
    && image[4] == 2 && image[5] == 1
    && Le(image, 16, 2) == 2 && Le(image, 18, 2) == 0x3E
  }

  /** A loadable part of an image: where it goes, its bytes, its size in memory. */
  datatype Segment = Segment(vaddr: nat, bytes: seq<byte>, memSize: nat, write: bool, exec: bool)

  /** One program header: skipped, wrong, or a segment to load. */
  datatype Header = Skip | Bad | Load(s: Segment)

  function HeaderAt(image: seq<byte>, off: nat): Header {
    if off > |image| || |image| - off < PHDR_SIZE then Bad
    else if Le(image, off, 4) != PT_LOAD then Skip
    else
      var start, size := Le(image, off + 8, 8), Le(image, off + 32, 8);
      if start > |image| || size > |image| - start then Bad
      else
        var flags := Le(image, off + 4, 4);
        Load(Segment(Le(image, off + 16, 8), image[start..start + size], Le(image, off + 40, 8),
                     flags / 2 % 2 == 1, flags % 2 == 1))
  }

  /** Content of page j of a segment: its bytes, then zeros. */
  function SegmentPage(bytes: seq<byte>, j: nat): Page {
    seq(PAGE, i requires 0 <= i < PAGE => if j * PAGE + i < |bytes| then bytes[j * PAGE + i] else 0)
  }

  function PageCount(size: nat): nat { (size + PAGE - 1) / PAGE }

  function SegmentPages(s: Segment): (r: seq<Page>)
    ensures |r| == PageCount(s.memSize)
  {
    seq(PageCount(s.memSize), j requires 0 <= j => SegmentPage(s.bytes, j))
  }

  /** `memory_map_user_segment` */
  function MapSegment(p: Pools, owner: int, root: nat, s: Segment): (r: (Pools, int))
    requires Sized(p) && root < MAX_USER_PT
    ensures Sized(r.0)
  {
    if (s.write && s.exec) || s.memSize < |s.bytes| then (p, -1)
    else MapPages(p, owner, root, PageOf(s.vaddr), SegmentPages(s), s.write, !s.exec)
  }

  function EntryOffset(start: nat, i: nat, size: nat): nat { start + i * size }

  /** Where program header i starts. */
  function HeaderOffset(image: seq<byte>, i: nat): nat
    requires IsElf(image)
  {
    EntryOffset(Le(image, 32, 8), i, Le(image, 54, 2))
  }

  /** `memory_map_user_rx`: a segment without zeros behind its bytes, executable. */
  function RxSegment(vaddr: nat, bytes: seq<byte>): Segment { Segment(vaddr, bytes, |bytes|, false, true) }

  /** `memory_map_user_rw`: a segment without bytes, writable. */
  function RwSegment(vaddr: nat, len: nat): Segment { Segment(vaddr, [], len, true, false) }

  /** Asking for pages that are not to be zeroed takes one page and fails. */
  function MapRw(p: Pools, owner: int, root: nat, vaddr: nat, len: nat, zeroFill: bool): (r: (Pools, int))
    requires Sized(p) && root < MAX_USER_PT
    ensures Sized(r.0)
  {
    if zeroFill || len == 0 then MapSegment(p, owner, root, RwSegment(vaddr, len))
    else
      match AllocData(p, owner, ZeroPage())
      case None => (p, -1)
      case Some((q, _)) => (q, -1)
  }

  /** The loop of `elf_load` over headers i .. n-1. */
  function LoadHeaders(p: Pools, owner: int, root: nat, image: seq<byte>, i: nat, n: nat): (r: (Pools, bool))
    requires Sized(p) && root < MAX_USER_PT && IsElf(image)
    ensures Sized(r.0)
    decreases n - i
  {
    if i >= n then (p, true)
    else
      match HeaderAt(image, HeaderOffset(image, i))
      case Bad => (p, false)
      case Skip => LoadHeaders(p, owner, root, image, i + 1, n)
      case Load(s) =>
        var (q, st) := MapSegment(p, owner, root, s);
        if st != 0 then (q, false) else LoadHeaders(q, owner, root, image, i + 1, n)
  }

  function FlatSegment(image: seq<byte>): Segment { RxSegment(USER_CODE_VADDR, image) }

  /** `elf_load`: the pools afterwards and the entry point on success. */
  function ElfLoad(p: Pools, owner: int, root: nat, image: seq<byte>): (r: (Pools, Option<nat>))
    requires Sized(p) && root < MAX_USER_PT
    ensures Sized(r.0)
  {
    if image == [] then (p, None)
    else if IsFlat(image) then
      var (q, st) := MapSegment(p, owner, root, FlatSegment(image));
      (q, if st != 0 then None else Some(USER_CODE_VADDR))
    else if !IsElf(image) || Le(image, 32, 8) > |image| then (p, None)
    else
      var (q, ok) := LoadHeaders(p, owner, root, image, 0, Le(image, 56, 2));
      (q, if ok then Some(Le(image, 24, 8)) else None)
  }

  // ---- the segments of an image, independent of any mapping ----

  function SegmentsFrom(image: seq<byte>, i: nat, n: nat): seq<Segment>
    requires IsElf(image)
    decreases n - i
  {
    if i >= n then []
    else
      match HeaderAt(image, HeaderOffset(image, i))
      case Load(s) => [s] + SegmentsFrom(image, i + 1, n)
      case _ => SegmentsFrom(image, i + 1, n)
  }

  /** Everything an image asks to have loaded, in order. */
  function Segments(image: seq<byte>): seq<Segment> {
    if IsFlat(image) then [FlatSegment(image)]
    else if IsElf(image) then SegmentsFrom(image, 0, Le(image, 56, 2))
    else []
  }

  /** Segment s occupies page g. */
  predicate Covers(s: Segment, g: nat)
    requires g < PAGES
  {
    Offset(PageOf(s.vaddr), g) < PageCount(s.memSize)
  }

  /** What page g shows once the segments are loaded in order over `under`: the last
      segment that covers the page decides. */
  function Overlay(segs: seq<Segment>, g: nat, under: Option<UserPage>): Option<UserPage>
    requires g < PAGES
  {
    if segs == [] then under
    else
      var s := segs[|segs| - 1];
      if Covers(s, g) then Some(UserPage(SegmentPage(s.bytes, Offset(PageOf(s.vaddr), g)), s.write, s.exec))
      else Overlay(segs[..|segs| - 1], g, under)
  }

  // ---- proofs ----

  /** What a segment must be for the loader to accept it. */
  predicate Loadable(s: Segment) {
    |s.bytes| <= s.memSize && !(s.write && s.exec) && PageCount(s.memSize) <= MAX_USER_DATA
  }

  /** One segment mapped. */
  lemma {:induction false} SegmentView(p: Pools, roles: seq<Role>, owner: int, root: nat, s: Segment) returns (roles': seq<Role>)
    requires Forest(p, roles) && root < MAX_USER_PT && roles[root].Top? && p.tableOwner[root] == Tag(owner)
    ensures var (q, st) := MapSegment(p, owner, root, s);
            && Forest(q, roles') && KeepsRoots(p, q, roles, roles')
            && (forall r :: 0 <= r < MAX_USER_PT && roles[r].Top? && r != root ==> SameFor(p, q, r))
            && (KernelMapped(p, root) ==> KernelMapped(q, root))
            && (st == 0 ==> Loadable(s)
                            && forall g :: 0 <= g < PAGES ==> View(q, root, g) == Overlay([s], g, View(p, root, g)))
  {
    hide Walk, Forest, View, MapPages;
    ForestSized(p, roles);
    if (s.write && s.exec) || s.memSize < |s.bytes| {
      roles' := roles;
    } else {
      roles' := MapPagesView(p, roles, owner, root, PageOf(s.vaddr), SegmentPages(s), s.write, !s.exec);
      assert [s][..0] == [];
    }
  }

  lemma {:induction false} OverlayAppend(a: seq<Segment>, b: seq<Segment>, g: nat, under: Option<UserPage>)
    requires g < PAGES
    ensures Overlay(a + b, g, under) == Overlay(b, g, Overlay(a, g, under))
    decreases |b|
  {
    hide Covers, Offset, SegmentPage;
    if b == [] {
      assert a + b == a;
    } else {
      assert (a + b)[|a + b| - 1] == b[|b| - 1];
      assert (a + b)[..|a + b| - 1] == a + b[..|b| - 1];
      OverlayAppend(a, b[..|b| - 1], g, under);
    }
  }

  /** The header loop loads exactly the segments of the headers it passes. */
  lemma {:induction false} HeadersView(p: Pools, roles: seq<Role>, owner: int, root: nat, image: seq<byte>, i: nat, n: nat)
    returns (roles': seq<Role>)
    requires Forest(p, roles) && root < MAX_USER_PT && roles[root].Top? && p.tableOwner[root] == Tag(owner) && IsElf(image)
    ensures var (q, ok) := LoadHeaders(p, owner, root, image, i, n);
            && Forest(q, roles') && KeepsRoots(p, q, roles, roles')
            && (forall r :: 0 <= r < MAX_USER_PT && roles[r].Top? && r != root ==> SameFor(p, q, r))
            && (KernelMapped(p, root) ==> KernelMapped(q, root))
            && (ok ==> (forall s :: s in SegmentsFrom(image, i, n) ==> Loadable(s))
                       && forall g :: 0 <= g < PAGES ==> View(q, root, g) == Overlay(SegmentsFrom(image, i, n), g, View(p, root, g)))
    decreases n - i
  {
    hide Walk, Forest, View, MapSegment, HeaderAt, HeaderOffset, Overlay, Le, IsElf;
    ForestSized(p, roles);
    roles' := roles;
    if i >= n {
      EmptyOverlay();
    } else {
      var h := HeaderAt(image, HeaderOffset(image, i));
      match h
      case Bad =>
      case Skip => roles' := HeadersView(p, roles, owner, root, image, i + 1, n);
      case Load(s) =>
        var (q, st) := MapSegment(p, owner, root, s);
        roles' := SegmentView(p, roles, owner, root, s);
        if st == 0 {
          ghost var mid := roles';
          roles' := HeadersView(q, mid, owner, root, image, i + 1, n);
          forall g | 0 <= g < PAGES
            ensures Overlay([s] + SegmentsFrom(image, i + 1, n), g, View(p, root, g))
                    == Overlay(SegmentsFrom(image, i + 1, n), g, View(q, root, g))
          {
            OverlayAppend([s], SegmentsFrom(image, i + 1, n), g, View(p, root, g));
          }
        }
    }
  }

  lemma {:induction false} EmptyOverlay()
    ensures forall g, u :: 0 <= g < PAGES ==> Overlay([], g, u) == u
  {
  }

  /** Loading an image: other programs see what they saw; the supervisor's 4 MB stay; and
      on success every page of the address space shows the image's segments. */
  lemma {:induction false} LoadView(p: Pools, roles: seq<Role>, owner: int, root: nat, image: seq<byte>) returns (roles': seq<Role>)
    requires Forest(p, roles) && root < MAX_USER_PT && roles[root].Top? && p.tableOwner[root] == Tag(owner)
    ensures var (q, entry) := ElfLoad(p, owner, root, image);
            && Forest(q, roles') && KeepsRoots(p, q, roles, roles')
            && (forall r :: 0 <= r < MAX_USER_PT && roles[r].Top? && r != root ==> SameFor(p, q, r))
            && (KernelMapped(p, root) ==> KernelMapped(q, root))
            && (entry.Some? ==> (forall s :: s in Segments(image) ==> Loadable(s))
                                && forall g :: 0 <= g < PAGES ==> View(q, root, g) == Overlay(Segments(image), g, View(p, root, g)))
  {
    hide Walk, Forest, View, MapSegment, LoadHeaders, Overlay, Le;
    ForestSized(p, roles);
    roles' := roles;
    if image != [] {
      if IsFlat(image) {
        roles' := SegmentView(p, roles, owner, root, FlatSegment(image));
      } else if IsElf(image) {
        roles' := HeadersView(p, roles, owner, root, image, 0, Le(image, 56, 2));
        if Le(image, 32, 8) > |image| { roles' := roles; }
      }
    }
  }

  // ---- byte for byte ----

  /** The byte user code reads at an address. */
  function UserByte(p: Pools, root: nat, vaddr: nat): Option<byte>
    requires Sized(p) && root < MAX_USER_PT
  {
    BytesAt(View(p, root, PageOf(vaddr)), vaddr)
  }

  /** The page boundary at or below an address. */
  function PageBase(vaddr: nat): nat { vaddr / PAGE * PAGE }

  /** Byte k of a segment in memory. */
  function SegmentByte(s: Segment, k: nat): byte {
    if k < |s.bytes| then s.bytes[k] else 0
  }

  /** No segment behind position i occupies a page of segment i. */
  predicate LastOnItsPages(segs: seq<Segment>, i: nat)
    requires i < |segs|
  {
    forall j, g :: i < j < |segs| && 0 <= g < PAGES && Covers(segs[i], g) ==> !Covers(segs[j], g)
  }

  lemma {:induction false} OverlayLast(segs: seq<Segment>, i: nat, g: nat, under: Option<UserPage>)
    requires i < |segs| && g < PAGES && LastOnItsPages(segs, i) && Covers(segs[i], g)
    ensures Overlay(segs, g, under)
            == Some(UserPage(SegmentPage(segs[i].bytes, Offset(PageOf(segs[i].vaddr), g)), segs[i].write, segs[i].exec))
    decreases |segs|
  {
    hide Covers, Offset, SegmentPage, PageOf;
    if i < |segs| - 1 {
      OverlayLast(segs[..|segs| - 1], i, g, under);
    }
  }

  lemma {:induction false} PageSteps(base: nat, k: nat)
    requires base % PAGE == 0 && k / PAGE < PAGES
    ensures Offset(PageOf(base), PageOf(base + k)) == k / PAGE && (base + k) % PAGE == k % PAGE
  {
    assert (base + k) / PAGE == base / PAGE + k / PAGE;
    var a, b := base / PAGE, k / PAGE;
    assert ((a + b) % PAGES + PAGES - a % PAGES) % PAGES == b;
  }

  function BytesAt(u: Option<UserPage>, vaddr: nat): Option<byte> {
    match u
    case Some(page) => Some(page.bytes[vaddr % PAGE])
    case None => None
  }

  lemma {:induction false} CoversStep(s: Segment, k: nat)
    requires Loadable(s) && k < PageCount(s.memSize) * PAGE
    ensures k / PAGE < PAGES && Covers(s, PageOf(PageBase(s.vaddr) + k))
    ensures Offset(PageOf(s.vaddr), PageOf(PageBase(s.vaddr) + k)) == k / PAGE
    ensures (PageBase(s.vaddr) + k) % PAGE == k % PAGE
  {
    hide PageOf, Offset;
    assert k / PAGE < PageCount(s.memSize);
    PageSteps(PageBase(s.vaddr), k);
    SamePage(s.vaddr);
  }

  lemma {:induction false} OverlayByte(segs: seq<Segment>, i: nat, k: nat, under: Option<UserPage>)
    requires i < |segs| && LastOnItsPages(segs, i) && Loadable(segs[i]) && k < PageCount(segs[i].memSize) * PAGE
    ensures var vaddr := PageBase(segs[i].vaddr) + k;
            BytesAt(Overlay(segs, PageOf(vaddr), under), vaddr) == Some(SegmentByte(segs[i], k))
  {
    hide Overlay, PageOf, Offset, Covers, PageCount, LastOnItsPages;
    CoversStep(segs[i], k);
    OverlayLast(segs, i, PageOf(PageBase(segs[i].vaddr) + k), under);
  }

  /** After a successful load, one address reads as the segments say. */
  lemma {:induction false} LoadedByte(p: Pools, roles: seq<Role>, owner: int, root: nat, image: seq<byte>, vaddr: nat)
    requires Forest(p, roles) && root < MAX_USER_PT && roles[root].Top? && p.tableOwner[root] == Tag(owner)
    requires ElfLoad(p, owner, root, image).1.Some?
    ensures forall s :: s in Segments(image) ==> Loadable(s)
    ensures UserByte(ElfLoad(p, owner, root, image).0, root, vaddr)
            == BytesAt(Overlay(Segments(image), PageOf(vaddr), View(p, root, PageOf(vaddr))), vaddr)
  {
    hide Walk, Forest, View, ElfLoad, Overlay, Segments, PageOf, Loadable, SameFor, KernelMapped, KeepsRoots, BytesAt;
    ForestSized(p, roles);
    var roles' := LoadView(p, roles, owner, root, image);
  }

  /** A loaded image reads back: at k bytes behind the start of its first page, a segment
      whose pages no later segment takes shows its byte k, and zero once its file bytes
      are used up. */
  lemma {:induction false} ReadBack(p: Pools, roles: seq<Role>, owner: int, root: nat, image: seq<byte>, i: nat, k: nat)
    requires Forest(p, roles) && root < MAX_USER_PT && roles[root].Top? && p.tableOwner[root] == Tag(owner)
    requires ElfLoad(p, owner, root, image).1.Some? && i < |Segments(image)|
    requires LastOnItsPages(Segments(image), i) && k < PageCount(Segments(image)[i].memSize) * PAGE
    ensures var s := Segments(image)[i];
            UserByte(ElfLoad(p, owner, root, image).0, root, PageBase(s.vaddr) + k) == Some(SegmentByte(s, k))
  {
    hide *;
    ForestSized(p, roles);
    var s := Segments(image)[i];
    var vaddr := PageBase(s.vaddr) + k;
    LoadedByte(p, roles, owner, root, image, vaddr);
    assert s in Segments(image);
    OverlayByte(Segments(image), i, k, View(p, root, PageOf(vaddr)));
  }

  lemma {:induction false} SamePage(vaddr: nat)
    ensures PageOf(PageBase(vaddr)) == PageOf(vaddr) && (PageBase(vaddr)) % PAGE == 0
  {
    var base := PageBase(vaddr);
    assert base / PAGE == vaddr / PAGE;
  }

  /** For a segment that starts on a page boundary this is its own address range: file
      bytes at p_vaddr .. p_vaddr + p_filesz, zeros up to p_memsz. */
  lemma {:induction false} ReadBackAligned(p: Pools, roles: seq<Role>, owner: int, root: nat, image: seq<byte>, i: nat, k: nat)
    requires Forest(p, roles) && root < MAX_USER_PT && roles[root].Top? && p.tableOwner[root] == Tag(owner)
    requires ElfLoad(p, owner, root, image).1.Some? && i < |Segments(image)| && LastOnItsPages(Segments(image), i)
    requires Segments(image)[i].vaddr % PAGE == 0 && k < Segments(image)[i].memSize
    ensures var s := Segments(image)[i];
            UserByte(ElfLoad(p, owner, root, image).0, root, s.vaddr + k) == Some(SegmentByte(s, k))
  {
    hide Walk, Forest, View, ElfLoad, Overlay, Segments, LastOnItsPages, UserByte;
    ForestSized(p, roles);
    ReadBack(p, roles, owner, root, image, i, k);
  }

  /** A segment that does not start on a page boundary is shifted: its first address shows
      the byte as many places further on as the address lies behind the boundary. */
  lemma {:induction false} UnalignedShifted(p: Pools, roles: seq<Role>, owner: int, root: nat, image: seq<byte>, i: nat, k: nat)
    requires Forest(p, roles) && root < MAX_USER_PT && roles[root].Top? && p.tableOwner[root] == Tag(owner)
    requires ElfLoad(p, owner, root, image).1.Some? && i < |Segments(image)| && LastOnItsPages(Segments(image), i)
    requires k + Segments(image)[i].vaddr % PAGE < PageCount(Segments(image)[i].memSize) * PAGE
    ensures var s := Segments(image)[i];
            UserByte(ElfLoad(p, owner, root, image).0, root, s.vaddr + k) == Some(SegmentByte(s, k + s.vaddr % PAGE))
  {
    hide Walk, Forest, View, ElfLoad, Overlay, Segments, LastOnItsPages, UserByte;
    ForestSized(p, roles);
    ReadBack(p, roles, owner, root, image, i, k + Segments(image)[i].vaddr % PAGE);
  }

  // ---- any sequence of mapping calls ----

  datatype MapCall = Rx(vaddr: nat, bytes: seq<byte>) | Seg(s: Segment) | Rw(at: nat, len: nat, zeroFill: bool)

  function Call(p: Pools, owner: int, root: nat, c: MapCall): (r: Pools)
    requires Sized(p) && root < MAX_USER_PT
    ensures Sized(r)
  {
    match c
    case Rx(vaddr, bytes) => MapSegment(p, owner, root, RxSegment(vaddr, bytes)).0
    case Seg(s) => MapSegment(p, owner, root, s).0
    case Rw(at, len, zeroFill) => MapRw(p, owner, root, at, len, zeroFill).0
  }

  function Calls(p: Pools, owner: int, root: nat, cs: seq<MapCall>): (r: Pools)
    requires Sized(p) && root < MAX_USER_PT
    ensures Sized(r)
    decreases |cs|
  {
    if cs == [] then p else Calls(Call(p, owner, root, cs[0]), owner, root, cs[1..])
  }

  lemma {:induction false} CallKeeps(p: Pools, roles: seq<Role>, owner: int, root: nat, c: MapCall) returns (roles': seq<Role>)
    requires Forest(p, roles) && root < MAX_USER_PT && roles[root].Top? && p.tableOwner[root] == Tag(owner) && KernelMapped(p, root)
    ensures var q := Call(p, owner, root, c);
            Forest(q, roles') && roles'[root].Top? && q.tableOwner[root] == Tag(owner) && KernelMapped(q, root)
  {
    hide Forest, KernelMapped, MapSegment, SameFor, View, Overlay;
    ForestSized(p, roles);
    match c
    case Rx(vaddr, bytes) => roles' := SegmentView(p, roles, owner, root, RxSegment(vaddr, bytes));
    case Seg(s) => roles' := SegmentView(p, roles, owner, root, s);
    case Rw(at, len, zeroFill) =>
      if zeroFill || len == 0 {
        roles' := SegmentView(p, roles, owner, root, RwSegment(at, len));
      } else {
        roles' := roles;
        if AllocData(p, owner, ZeroPage()).Some? {
          AllocDataForest(p, roles, owner, ZeroPage());
          SameKernelTables(p, AllocData(p, owner, ZeroPage()).value.0, root);
        }
      }
  }

  lemma {:induction false} SameKernelTables(p: Pools, q: Pools, root: nat)
    requires q.tables == p.tables && root < |p.tables| && KernelMapped(p, root)
    ensures KernelMapped(q, root)
  {
    hide Walk;
    forall g | 0 <= g < KERNEL_PAGES ensures Walk(q, root, g) == Walk(p, root, g) { WalkTables(p, q, root, g); }
  }

  /** However an address space is filled, and whether or not the calls succeed: no address
      is user-accessible, writable and executable at once, and the first 4 MB stay the
      supervisor's. */
  lemma {:induction false} CallsGuarded(p: Pools, roles: seq<Role>, owner: int, cs: seq<MapCall>, g: nat)
    requires Forest(p, roles) && CreateTables(p, owner).1.Some? && g < PAGES
    ensures var (q, root) := CreateTables(p, owner);
            var w := Walk(Calls(q, owner, root.value, cs), root.value, g);
            && (w.Mapped? && w.rights.user ==> !(w.rights.write && w.rights.exec))
            && (g < KERNEL_PAGES ==> w == Mapped(Phys(g * PAGE), Rights(true, false, true)))
  {
    hide Forest, Walk, CreateTables;
    ForestSized(p, roles);
    var roles' := CreateView(p, roles, owner);
    var q, root := CreateTables(p, owner).0, CreateTables(p, owner).1.value;
    CallsGuardedFrom(q, roles', owner, root, cs, g);
  }

  lemma {:induction false} CallsGuardedFrom(p: Pools, roles: seq<Role>, owner: int, root: nat, cs: seq<MapCall>, g: nat)
    requires Forest(p, roles) && root < MAX_USER_PT && roles[root].Top? && p.tableOwner[root] == Tag(owner) && KernelMapped(p, root)
    requires g < PAGES
    ensures var w := Walk(Calls(p, owner, root, cs), root, g);
            && (w.Mapped? && w.rights.user ==> !(w.rights.write && w.rights.exec))
            && (g < KERNEL_PAGES ==> w == Mapped(Phys(g * PAGE), Rights(true, false, true)))
    decreases |cs|
  {
    hide Forest, Walk, Call;
    ForestSized(p, roles);
    if cs == [] {
      var w := Walk(p, root, g);
      if w.Mapped? && w.rights.user { UserAccess(p, roles, root, g); }
    } else {
      var roles' := CallKeeps(p, roles, owner, root, cs[0]);
      CallsGuardedFrom(Call(p, owner, root, cs[0]), roles', owner, root, cs[1..], g);
    }
  }
}
