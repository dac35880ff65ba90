/**
 ELF images written field by field, and what the loader makes of them: the segments it sees
 are the ones that were written, a whole image loads when there is room, and no image that
 was cut short loads at all.
 */
module ElfLaws {
  import opened Common
  import opened PageTables
  import opened PageProofs
  import opened PoolProofs
  import opened Elf
  import opened MapLaws

  const TWO64: nat := 0x1_0000_0000_0000_0000

  // ---- writing an image ----

  /** A program header to be written: a loadable segment with the fields the loader does not
      look at, or an entry of another kind. */
  datatype Part = Code(s: Segment, paddr: nat, align: nat) | Note(kind: nat)

  /** The fields of the file header that the loader does not look at. */
  datatype Extra = Extra(version: nat, shoff: nat, flags: nat, sections: nat)

  function PartBytes(x: Part): seq<byte> { if x.Code? then x.s.bytes else [] }

  /** Elf64_Ehdr: the header table of n entries stands right behind it. */
  function FileHeader(n: nat, entry: nat, x: Extra): (h: seq<byte>)
    ensures |h| == 64
  {
    Ident() + Places(entry, x) + Counts(n, x)
  }

  /** e_ident, e_type, e_machine */
  function Ident(): (h: seq<byte>)
    ensures |h| == 20
  {
    [0x7F, 'E' as int, 'L' as int, 'F' as int, 2, 1, 1, 0, 0, 0, 0, 0, 0, 0, 0, 0] + LeBytes(2, 2) + LeBytes(0x3E, 2)
  }

  /** e_version, e_entry, e_phoff, e_shoff, e_flags */
  function Places(entry: nat, x: Extra): (h: seq<byte>)
    ensures |h| == 32
  {
    LeBytes(x.version, 4) + LeBytes(entry, 8) + LeBytes(64, 8) + LeBytes(x.shoff, 8) + LeBytes(x.flags, 4)
  }

  /** e_ehsize, e_phentsize, e_phnum, e_shentsize, e_shnum, e_shstrndx */
  function Counts(n: nat, x: Extra): (h: seq<byte>)
    ensures |h| == 12
  {
    LeBytes(64, 2) + LeBytes(56, 2) + LeBytes(n, 2) + LeBytes(64, 2) + LeBytes(x.sections, 2) + LeBytes(0, 2)
  }

  const PF_X: nat := 1
  const PF_W: nat := 2
  const PF_R: nat := 4

  function PartFlags(s: Segment): nat { PF_R + (if s.write then PF_W else 0) + (if s.exec then PF_X else 0) }

  /** Elf64_Phdr of a part whose bytes stand at `off` in the file. */
  function PartHeader(x: Part, off: nat): (h: seq<byte>)
    ensures |h| == 56
  {
    match x
    case Code(s, paddr, align) =>
      LeBytes(1, 4) + LeBytes(PartFlags(s), 4) + LeBytes(off, 8) + LeBytes(s.vaddr, 8) + LeBytes(paddr, 8)
      + LeBytes(|s.bytes|, 8) + LeBytes(s.memSize, 8) + LeBytes(align, 8)
    case Note(kind) =>
      LeBytes(kind, 4) + LeBytes(0, 4) + LeBytes(off, 8) + LeBytes(0, 8) + LeBytes(0, 8) + LeBytes(0, 8) + LeBytes(0, 8) + LeBytes(0, 8)
  }

  function Headers(parts: seq<Part>, off: nat): (h: seq<byte>)
    ensures |h| == 56 * |parts|
  {
    if parts == [] then [] else PartHeader(parts[0], off) + Headers(parts[1..], off + |PartBytes(parts[0])|)
  }

  function Contents(parts: seq<Part>): seq<byte> {
    if parts == [] then [] else PartBytes(parts[0]) + Contents(parts[1..])
  }

  /** Where the bytes of part i stand among the contents. */
  function Before(parts: seq<Part>, i: nat): nat
    requires i <= |parts|
  {
    if i == 0 then 0 else |PartBytes(parts[0])| + Before(parts[1..], i - 1)
  }

  function DataStart(parts: seq<Part>): nat { 64 + 56 * |parts| }

  /** File header, header table, contents. */
  function Written(parts: seq<Part>, entry: nat, x: Extra): seq<byte> {
    FileHeader(|parts|, entry, x) + Headers(parts, DataStart(parts)) + Contents(parts)
  }

  /** The fields fit their widths. */
  ghost predicate Writable(parts: seq<Part>, entry: nat) {
    && |parts| < 0x1_0000 && entry < TWO64 && DataStart(parts) + |Contents(parts)| < TWO64
    && forall i :: 0 <= i < |parts| ==>
         if parts[i].Code? then parts[i].s.vaddr < TWO64 && parts[i].s.memSize < TWO64 else parts[i].kind != 1 && parts[i].kind < 0x1_0000_0000
  }

  function SegmentsOf(parts: seq<Part>): seq<Segment> {
    if parts == [] then []
    else if parts[0].Code? then [parts[0].s] + SegmentsOf(parts[1..])
    else SegmentsOf(parts[1..])
  }

  // ---- reading it ----

  lemma {:induction false} Widths()
    ensures Pow256(2) == 0x1_0000 && Pow256(4) == 0x1_0000_0000 && Pow256(8) == TWO64
  {
    assert Pow256(1) == 256 && Pow256(2) == 0x1_0000 && Pow256(3) == 0x100_0000 && Pow256(4) == 0x1_0000_0000;
    assert Pow256(5) == 0x100_0000_0000 && Pow256(6) == 0x1_0000_0000_0000 && Pow256(7) == 0x100_0000_0000_0000;
  }

  lemma {:induction false} SliceOf(b: seq<byte>, i: nat, j: nat, k: nat, m: nat)
    requires i <= j <= |b| && k <= m <= j - i
    ensures b[i..j][k..m] == b[i + k..i + m]
  {
    var a, c := b[i..j][k..m], b[i + k..i + m];
    forall n | 0 <= n < m - k ensures a[n] == c[n] { assert a[n] == b[i..j][k + n]; }
  }

  /** A number written at `at` inside a header that stands at `off`. */
  lemma {:induction false} FieldReads(b: seq<byte>, off: nat, h: seq<byte>, at: nat, v: nat, n: nat)
    requires Occurs(b, off, h) && at + n <= |h| && h[at..at + n] == LeBytes(v, n) && v < Pow256(n)
    ensures off + at + n <= |b| && Le(b, off + at, n) == v
  {
    hide Le, LeBytes;
    SliceOf(b, off, off + |h|, at, at + n);
    assert b[off + at..off + (at + n)] == LeBytes(v, n);
    assert off + (at + n) == off + at + n;
    LeOfBytes(b, off + at, v, n);
  }

  lemma {:induction false} FileHeaderFields(n: nat, entry: nat, x: Extra)
    ensures var h := FileHeader(n, entry, x);
            && h[..4] == [0x7F, 'E' as int, 'L' as int, 'F' as int] && h[4] == 2 && h[5] == 1
            && h[16..18] == LeBytes(2, 2) && h[18..20] == LeBytes(0x3E, 2) && h[24..32] == LeBytes(entry, 8)
            && h[32..40] == LeBytes(64, 8) && h[54..56] == LeBytes(56, 2) && h[56..58] == LeBytes(n, 2)
  {
    hide LeBytes, Ident, Places, Counts;
    IdentFields();
    PlacesFields(entry, x);
    CountsFields(n, x);
    var a, b, c := Ident(), Places(entry, x), Counts(n, x);
    var h := FileHeader(n, entry, x);
    assert h[..4] == a[..4] && h[4] == a[4] && h[5] == a[5] && h[16..18] == a[16..18] && h[18..20] == a[18..20];
    assert h[24..32] == b[4..12] && h[32..40] == b[12..20];
    assert h[54..56] == c[2..4] && h[56..58] == c[4..6];
  }

  lemma {:induction false} IdentFields()
    ensures var a := Ident();
            && a[..4] == [0x7F, 'E' as int, 'L' as int, 'F' as int] && a[4] == 2 && a[5] == 1
            && a[16..18] == LeBytes(2, 2) && a[18..20] == LeBytes(0x3E, 2)
  {
    hide LeBytes;
  }

  lemma {:induction false} PlacesFields(entry: nat, x: Extra)
    ensures Places(entry, x)[4..12] == LeBytes(entry, 8) && Places(entry, x)[12..20] == LeBytes(64, 8)
  {
    hide LeBytes;
  }

  lemma {:induction false} CountsFields(n: nat, x: Extra)
    ensures Counts(n, x)[2..4] == LeBytes(56, 2) && Counts(n, x)[4..6] == LeBytes(n, 2)
  {
    hide LeBytes;
  }

  lemma {:induction false} FileHeaderReads(parts: seq<Part>, entry: nat, x: Extra)
    requires Writable(parts, entry)
    ensures var b := Written(parts, entry, x);
            && IsElf(b) && !IsFlat(b) && Le(b, 24, 8) == entry && Le(b, 32, 8) == 64 && Le(b, 54, 2) == 56 && Le(b, 56, 2) == |parts|
  {
    hide LeBytes, Le, FileHeader, Headers, Contents;
    var b, h := Written(parts, entry, x), FileHeader(|parts|, entry, x);
    Widths();
    FileHeaderFields(|parts|, entry, x);
    assert b[..64] == h;
    assert Occurs(b, 0, h);
    assert forall k :: 0 <= k < 4 ==> b[k] == h[..4][k];
    assert b[4] == h[4] && b[5] == h[5];
    FieldReads(b, 0, h, 16, 2, 2);
    FieldReads(b, 0, h, 18, 0x3E, 2);
    FieldReads(b, 0, h, 24, entry, 8);
    FieldReads(b, 0, h, 32, 64, 8);
    FieldReads(b, 0, h, 54, 56, 2);
    FieldReads(b, 0, h, 56, |parts|, 2);
  }

  lemma {:induction false} HeadersAt(parts: seq<Part>, off: nat, i: nat)
    requires i < |parts|
    ensures Occurs(Headers(parts, off), 56 * i, PartHeader(parts[i], off + Before(parts, i)))
    decreases i
  {
    hide PartHeader;
    if i > 0 {
      var first, rest := PartHeader(parts[0], off), Headers(parts[1..], off + |PartBytes(parts[0])|);
      HeadersAt(parts[1..], off + |PartBytes(parts[0])|, i - 1);
      assert (first + rest)[56 * i..56 * i + 56] == rest[56 * (i - 1)..56 * (i - 1) + 56];
    }
  }

  lemma {:induction false} ContentsAt(parts: seq<Part>, i: nat)
    requires i < |parts|
    ensures Occurs(Contents(parts), Before(parts, i), PartBytes(parts[i]))
    decreases i
  {
    hide PartBytes;
    if i > 0 {
      var first, rest := PartBytes(parts[0]), Contents(parts[1..]);
      ContentsAt(parts[1..], i - 1);
      var k, n := Before(parts[1..], i - 1), |PartBytes(parts[i])|;
      assert (first + rest)[|first| + k..|first| + k + n] == rest[k..k + n];
    }
  }

  /** Where header i and the bytes of part i stand in the file. */
  lemma {:induction false} PartStands(parts: seq<Part>, entry: nat, x: Extra, i: nat)
    requires i < |parts|
    ensures var b := Written(parts, entry, x);
            var start := DataStart(parts) + Before(parts, i);
            Occurs(b, 64 + 56 * i, PartHeader(parts[i], start)) && Occurs(b, start, PartBytes(parts[i]))
  {
    hide FileHeader, Headers, Contents, PartHeader, PartBytes;
    HeadersAt(parts, DataStart(parts), i);
    ContentsAt(parts, i);
    var f, h, c := FileHeader(|parts|, entry, x), Headers(parts, DataStart(parts)), Contents(parts);
    OccursBehind(f, h, c, 56 * i, PartHeader(parts[i], DataStart(parts) + Before(parts, i)));
    OccursBehind(f + h, c, [], Before(parts, i), PartBytes(parts[i]));
    assert f + h + c + [] == f + h + c;
  }

  lemma {:induction false} OccursBehind(a: seq<byte>, s: seq<byte>, z: seq<byte>, i: nat, p: seq<byte>)
    requires Occurs(s, i, p)
    ensures Occurs(a + s + z, |a| + i, p)
  {
    assert (a + s + z)[|a| + i..|a| + i + |p|] == s[i..i + |p|];
  }

  lemma {:induction false} PartHeaderFields(x: Part, off: nat)
    ensures var h := PartHeader(x, off);
            if x.Note? then h[..4] == LeBytes(x.kind, 4)
            else && h[..4] == LeBytes(1, 4) && h[4..8] == LeBytes(PartFlags(x.s), 4) && h[8..16] == LeBytes(off, 8)
                 && h[16..24] == LeBytes(x.s.vaddr, 8) && h[32..40] == LeBytes(|x.s.bytes|, 8) && h[40..48] == LeBytes(x.s.memSize, 8)
  {
    hide LeBytes;
  }

  lemma {:induction false} FlagsRead(s: Segment)
    ensures var f := PartFlags(s); f < 8 && (f / 2 % 2 == 1) == s.write && (f % 2 == 1) == s.exec
  {
  }

  /** A header that was written is read as the part it was written for, in any file that
      holds the header and the part's bytes. */
  lemma {:induction false} PartReads(b: seq<byte>, at: nat, x: Part, start: nat)
    requires Occurs(b, at, PartHeader(x, start)) && start + |PartBytes(x)| < TWO64
    requires if x.Code? then x.s.vaddr < TWO64 && x.s.memSize < TWO64 else x.kind != 1 && x.kind < 0x1_0000_0000
    ensures x.Note? ==> HeaderAt(b, at) == Skip
    ensures x.Code? && Occurs(b, start, x.s.bytes) ==> HeaderAt(b, at) == Load(x.s)
    ensures x.Code? && start + |x.s.bytes| > |b| ==> HeaderAt(b, at) == Bad
  {
    hide LeBytes, Le, PartHeader, PartFlags;
    var h := PartHeader(x, start);
    Widths();
    PartHeaderFields(x, start);
    assert h[0..4] == h[..4];
    if x.Code? {
      var s := x.s;
      FlagsRead(s);
      FieldReads(b, at, h, 0, 1, 4);
      FieldReads(b, at, h, 4, PartFlags(s), 4);
      FieldReads(b, at, h, 8, start, 8);
      FieldReads(b, at, h, 16, s.vaddr, 8);
      FieldReads(b, at, h, 32, |s.bytes|, 8);
      FieldReads(b, at, h, 40, s.memSize, 8);
    } else {
      FieldReads(b, at, h, 0, x.kind, 4);
    }
  }

  lemma {:induction false} BeforeFits(parts: seq<Part>, i: nat)
    requires i < |parts|
    ensures Before(parts, i) + |PartBytes(parts[i])| <= |Contents(parts)|
  {
    ContentsAt(parts, i);
  }

  /** Header i of a written image. */
  lemma {:induction false} HeaderReads(parts: seq<Part>, entry: nat, x: Extra, i: nat)
    requires Writable(parts, entry) && i < |parts|
    ensures var b := Written(parts, entry, x);
            && IsElf(b) && HeaderOffset(b, i) == 64 + 56 * i
            && HeaderAt(b, HeaderOffset(b, i)) == if parts[i].Code? then Load(parts[i].s) else Skip
  {
    hide Written, HeaderAt, Le, Contents, Headers, Before, PartHeader, IsElf;
    var b := Written(parts, entry, x);
    FileHeaderReads(parts, entry, x);
    PartStands(parts, entry, x, i);
    BeforeFits(parts, i);
    EntryAt(i);
    PartReads(b, 64 + 56 * i, parts[i], DataStart(parts) + Before(parts, i));
  }

  lemma {:induction false} EntryAt(i: nat)
    ensures EntryOffset(64, i, 56) == 64 + 56 * i
  {
  }

  /** The segments seen in a written image are the segments written, in order, each with its
      place, bytes, size and rights. */
  lemma {:induction false} SegmentsRead(parts: seq<Part>, entry: nat, x: Extra)
    requires Writable(parts, entry)
    ensures Segments(Written(parts, entry, x)) == SegmentsOf(parts)
  {
    hide Written, Le, Writable, IsElf;
    FileHeaderReads(parts, entry, x);
    SegmentsReadFrom(parts, entry, x, 0);
    assert parts[0..] == parts;
  }

  lemma {:induction false} SegmentsReadFrom(parts: seq<Part>, entry: nat, x: Extra, i: nat)
    requires Writable(parts, entry) && i <= |parts|
    ensures IsElf(Written(parts, entry, x))
    ensures SegmentsFrom(Written(parts, entry, x), i, |parts|) == SegmentsOf(parts[i..])
    decreases |parts| - i
  {
    hide Written, Le, Writable, IsElf, HeaderAt, HeaderOffset;
    FileHeaderReads(parts, entry, x);
    if i < |parts| {
      HeaderReads(parts, entry, x, i);
      SegmentsReadFrom(parts, entry, x, i + 1);
      assert parts[i..][0] == parts[i] && parts[i..][1..] == parts[i + 1..];
    }
  }

  // ---- loading it ----

  /** Leaf tables a segment can need at most. */
  function Leaves(s: Segment): nat {
    if PageCount(s.memSize) == 0 then 0 else (PageOf(s.vaddr) + PageCount(s.memSize) - 1) / 512 - PageOf(s.vaddr) / 512 + 1
  }

  function PagesNeeded(segs: seq<Segment>): nat { if segs == [] then 0 else PageCount(segs[0].memSize) + PagesNeeded(segs[1..]) }

  function TablesNeeded(segs: seq<Segment>): nat { if segs == [] then 0 else Leaves(segs[0]) + TablesNeeded(segs[1..]) }

  /** A segment the address space has a place for. */
  predicate Placeable(s: Segment) {
    && |s.bytes| <= s.memSize && !(s.write && s.exec)
    && (s.memSize > 0 ==> KERNEL_PAGES <= PageOf(s.vaddr) && PageOf(s.vaddr) + PageCount(s.memSize) <= GB_PAGES)
  }

  lemma {:induction false} MissingAtMost(p: Pools, root: nat, start: nat, q: nat, n: nat)
    requires root < |p.tables| && start <= q
    ensures n > 0 ==> Missing(p, root, start, q, n) <= (q + n - 1) / 512 - q / 512 + (if q == start || q % 512 == 0 then 1 else 0)
    ensures n == 0 ==> Missing(p, root, start, q, n) == 0
    decreases n
  {
    hide HasLeaf;
    if n > 0 { MissingAtMost(p, root, start, q + 1, n - 1); }
  }

  lemma {:induction false} SegmentFits(p: Pools, root: nat, s: Segment)
    requires root < |p.tables| && Placeable(s) && PageCount(s.memSize) <= FreeCount(p.dataOwner) && Leaves(s) <= FreeCount(p.tableOwner)
    ensures !(s.write && s.exec) && |s.bytes| <= s.memSize
    ensures RoomFor(p, root, PageOf(s.vaddr), PageCount(s.memSize)) && NewTables(p, root, PageOf(s.vaddr), PageCount(s.memSize)) <= Leaves(s)
  {
    hide Missing, FreeCount, PageOf, HasLeaf;
    MissingAtMost(p, root, PageOf(s.vaddr), PageOf(s.vaddr), PageCount(s.memSize));
  }

  /** A written image whose segments all have a place loads whenever that many data pages and
      tables are free. */
  lemma {:induction false} ImageLoads(p: Pools, roles: seq<Role>, owner: int, root: nat, parts: seq<Part>, entry: nat, x: Extra)
    requires Forest(p, roles) && Grounded(p, root) && roles[root].Top? && p.tableOwner[root] == Tag(owner)
    requires Writable(parts, entry) && forall i :: 0 <= i < |parts| && parts[i].Code? ==> Placeable(parts[i].s)
    requires PagesNeeded(SegmentsOf(parts)) <= FreeCount(p.dataOwner) && TablesNeeded(SegmentsOf(parts)) <= FreeCount(p.tableOwner)
    ensures var (q, r) := ElfLoad(p, owner, root, Written(parts, entry, x));
            && r == Some(entry) && Grounded(q, root)
            && FreeCount(q.dataOwner) == FreeCount(p.dataOwner) - PagesNeeded(SegmentsOf(parts))
            && FreeCount(q.tableOwner) >= FreeCount(p.tableOwner) - TablesNeeded(SegmentsOf(parts))
  {
    hide Written, Le, IsElf, IsFlat, LoadHeaders, Forest, Grounded, FreeCount, SegmentsOf, Writable, Placeable;
    var b := Written(parts, entry, x);
    FileHeaderReads(parts, entry, x);
    ElfSize(b);
    assert parts[0..] == parts;
    LoadsFrom(p, roles, owner, root, parts, entry, x, 0);
  }

  lemma {:induction false} ElfSize(b: seq<byte>)
    requires IsElf(b)
    ensures |b| >= 64
  {
  }

  lemma {:induction false} LoadsFrom(p: Pools, roles: seq<Role>, owner: int, root: nat, parts: seq<Part>, entry: nat, x: Extra, i: nat)
    requires Forest(p, roles) && Grounded(p, root) && roles[root].Top? && p.tableOwner[root] == Tag(owner) && i <= |parts|
    requires Writable(parts, entry) && forall j :: 0 <= j < |parts| && parts[j].Code? ==> Placeable(parts[j].s)
    requires PagesNeeded(SegmentsOf(parts[i..])) <= FreeCount(p.dataOwner) && TablesNeeded(SegmentsOf(parts[i..])) <= FreeCount(p.tableOwner)
    ensures Sized(p) && root < MAX_USER_PT && IsElf(Written(parts, entry, x))
    ensures var (q, ok) := LoadHeaders(p, owner, root, Written(parts, entry, x), i, |parts|);
            && ok && Grounded(q, root)
            && FreeCount(q.dataOwner) == FreeCount(p.dataOwner) - PagesNeeded(SegmentsOf(parts[i..]))
            && FreeCount(q.tableOwner) >= FreeCount(p.tableOwner) - TablesNeeded(SegmentsOf(parts[i..]))
    decreases |parts| - i
  {
    hide Written, Le, IsElf, Forest, Grounded, FreeCount, Writable, Placeable, HeaderAt, HeaderOffset, MapSegment, PageCount, Leaves, Tag, Overlay, View;
    ForestSized(p, roles);
    GroundedSized(p, root);
    FileHeaderReads(parts, entry, x);
    if i < |parts| {
      HeaderReads(parts, entry, x, i);
      assert parts[i..][0] == parts[i] && parts[i..][1..] == parts[i + 1..];
      if parts[i].Code? {
        var s := parts[i].s;
        NeedsFirst(parts[i..]);
        SegmentFits(p, root, s);
        SegmentIff(p, roles, owner, root, s);
        var roles' := SegmentView(p, roles, owner, root, s);
        var (q, st) := MapSegment(p, owner, root, s);
        LoadsFrom(q, roles', owner, root, parts, entry, x, i + 1);
      } else {
        LoadsFrom(p, roles, owner, root, parts, entry, x, i + 1);
      }
    }
  }

  lemma {:induction false} NeedsFirst(parts: seq<Part>)
    requires parts != [] && parts[0].Code?
    ensures PagesNeeded(SegmentsOf(parts)) == PageCount(parts[0].s.memSize) + PagesNeeded(SegmentsOf(parts[1..]))
    ensures TablesNeeded(SegmentsOf(parts)) == Leaves(parts[0].s) + TablesNeeded(SegmentsOf(parts[1..]))
  {
    hide PageCount, Leaves;
    assert ([parts[0].s] + SegmentsOf(parts[1..]))[1..] == SegmentsOf(parts[1..]);
  }

  /** And then it reads back: file to memory, byte for byte, zeros behind. */
  lemma {:induction false} ImageReadsBack(p: Pools, roles: seq<Role>, owner: int, root: nat, parts: seq<Part>, entry: nat, x: Extra, i: nat, k: nat)
    requires Forest(p, roles) && Grounded(p, root) && roles[root].Top? && p.tableOwner[root] == Tag(owner)
    requires Writable(parts, entry) && forall j :: 0 <= j < |parts| && parts[j].Code? ==> Placeable(parts[j].s)
    requires PagesNeeded(SegmentsOf(parts)) <= FreeCount(p.dataOwner) && TablesNeeded(SegmentsOf(parts)) <= FreeCount(p.tableOwner)
    requires i < |SegmentsOf(parts)| && LastOnItsPages(SegmentsOf(parts), i)
    requires SegmentsOf(parts)[i].vaddr % PAGE == 0 && k < SegmentsOf(parts)[i].memSize
    ensures Sized(p) && root < MAX_USER_PT
    ensures var s := SegmentsOf(parts)[i];
            UserByte(ElfLoad(p, owner, root, Written(parts, entry, x)).0, root, s.vaddr + k)
            == Some(if k < |s.bytes| then s.bytes[k] else 0)
  {
    hide Written, Forest, Grounded, FreeCount, SegmentsOf, Writable, Placeable, ElfLoad, Segments, UserByte, LastOnItsPages;
    ForestSized(p, roles);
    GroundedSized(p, root);
    ImageLoads(p, roles, owner, root, parts, entry, x);
    SegmentsRead(parts, entry, x);
    ReadBackAligned(p, roles, owner, root, Written(parts, entry, x), i, k);
  }

  // ---- a cut image ----

  lemma {:induction false} BadHeaderFails(p: Pools, owner: int, root: nat, image: seq<byte>, i: nat, n: nat, j: nat)
    requires Sized(p) && root < MAX_USER_PT && IsElf(image) && i <= j < n && HeaderAt(image, HeaderOffset(image, j)).Bad?
    ensures !LoadHeaders(p, owner, root, image, i, n).1
    decreases n - i
  {
    hide HeaderAt, HeaderOffset, MapSegment, IsElf;
    if i < j {
      match HeaderAt(image, HeaderOffset(image, i))
      case Bad =>
      case Skip => BadHeaderFails(p, owner, root, image, i + 1, n, j);
      case Load(s) =>
        var (q, st) := MapSegment(p, owner, root, s);
        if st == 0 { BadHeaderFails(q, owner, root, image, i + 1, n, j); }
    }
  }

  /** An image of which a part is missing at the end never loads, if its last part has bytes. */
  lemma {:induction false} CutImageFails(p: Pools, owner: int, root: nat, parts: seq<Part>, entry: nat, x: Extra, m: nat)
    requires Sized(p) && root < MAX_USER_PT && Writable(parts, entry)
    requires parts != [] && parts[|parts| - 1].Code? && parts[|parts| - 1].s.bytes != []
    requires m < |Written(parts, entry, x)|
    ensures ElfLoad(p, owner, root, Written(parts, entry, x)[..m]).1 == None
  {
    hide Le, LoadHeaders, Headers, Contents, FileHeader, PartHeader, HeaderAt, HeaderOffset, Before;
    var b := Written(parts, entry, x);
    var c := b[..m];
    FileHeaderReads(parts, entry, x);
    if m >= 64 {
      CutHeader(b, m);
      var j := |parts| - 1;
      PartStands(parts, entry, x, j);
      LastPart(parts);
      EntryAt(j);
      CutPart(b, m, 64 + 56 * j, parts[j], DataStart(parts) + Before(parts, j));
      assert HeaderOffset(c, j) == 64 + 56 * j by { HeaderOffsetIs(c, j); }
      BadHeaderFails(p, owner, root, c, 0, |parts|, j);
    } else {
      assert m > 0 ==> c[0] == b[0];
    }
  }

  lemma {:induction false} HeaderOffsetIs(c: seq<byte>, j: nat)
    requires IsElf(c) && Le(c, 32, 8) == 64 && Le(c, 54, 2) == 56
    ensures HeaderOffset(c, j) == 64 + 56 * j
  {
  }

  lemma {:induction false} CutHeader(b: seq<byte>, m: nat)
    requires IsElf(b) && 64 <= m <= |b|
    ensures var c := b[..m];
            && IsElf(c) && !IsFlat(c) && Le(c, 24, 8) == Le(b, 24, 8) && Le(c, 32, 8) == Le(b, 32, 8)
            && Le(c, 54, 2) == Le(b, 54, 2) && Le(c, 56, 2) == Le(b, 56, 2)
  {
    hide Le;
    var c := b[..m];
    assert c[16..18] == b[16..18] && c[18..20] == b[18..20] && c[24..32] == b[24..32] && c[32..40] == b[32..40];
    assert c[54..56] == b[54..56] && c[56..58] == b[56..58];
    LeSame(c, 16, b, 16, 2);
    LeSame(c, 18, b, 18, 2);
    LeSame(c, 24, b, 24, 8);
    LeSame(c, 32, b, 32, 8);
    LeSame(c, 54, b, 54, 2);
    LeSame(c, 56, b, 56, 2);
  }

  lemma {:induction false} LastPart(parts: seq<Part>)
    requires parts != []
    ensures Before(parts, |parts| - 1) + |PartBytes(parts[|parts| - 1])| == |Contents(parts)|
    decreases |parts|
  {
    hide PartBytes;
    if |parts| > 1 { LastPart(parts[1..]); }
  }

  /** A part whose bytes are not all there has a bad header. */
  lemma {:induction false} CutPart(b: seq<byte>, m: nat, at: nat, x: Part, start: nat)
    requires x.Code? && Occurs(b, at, PartHeader(x, start)) && m < start + |x.s.bytes| <= |b| < TWO64 && x.s.vaddr < TWO64 && x.s.memSize < TWO64
    ensures HeaderAt(b[..m], at) == Bad
  {
    hide PartHeader, Le;
    if at + 56 <= m {
      assert b[..m][at..at + 56] == b[at..at + 56];
      PartReads(b[..m], at, x, start);
    } else {
      HeaderOutside(b[..m], at);
    }
  }

  lemma {:induction false} HeaderOutside(c: seq<byte>, at: nat)
    requires at + 56 > |c|
    ensures HeaderAt(c, at) == Bad
  {
  }

  // ---- flat images, and what is no program ----

  /** Four bytes or more that do not begin with 0x7F are code for 0x400000: they load whenever there
      is room, are entered at their first byte, and read back as they are, executable and not
      writable. */
  lemma {:induction false} FlatLoads(p: Pools, roles: seq<Role>, owner: int, root: nat, image: seq<byte>, k: nat)
    requires Forest(p, roles) && Grounded(p, root) && roles[root].Top? && p.tableOwner[root] == Tag(owner)
    requires 4 <= |image| <= 0x3FC0_0000 && image[0] != 0x7F && k < |image|
    ensures Sized(p) && root < MAX_USER_PT
    ensures var (q, r) := ElfLoad(p, owner, root, image);
            && r == (if RoomFor(p, root, 0x400, PageCount(|image|)) then Some(0x40_0000) else None)
            && (r.Some? ==> && UserByte(q, root, 0x40_0000 + k) == Some(image[k])
                            && View(q, root, PageOf(0x40_0000 + k)).Some?
                            && !View(q, root, PageOf(0x40_0000 + k)).value.write && View(q, root, PageOf(0x40_0000 + k)).value.exec)
  {
    hide Forest, Grounded, FreeCount, MapSegment, View, Tag, RoomFor, Overlay;
    ForestSized(p, roles);
    GroundedSized(p, root);
    var s, addr := FlatSegment(image), 0x40_0000 + k;
    SegmentIff(p, roles, owner, root, s);
    assert PageOf(0x40_0000) == 0x400 && PageOf(addr) == 0x400 + k / 4096;
    if RoomFor(p, root, 0x400, PageCount(|image|)) {
      ghost var roles' := SegmentView(p, roles, owner, root, s);
      FlatPage(image, k, View(p, root, PageOf(addr)));
    }
  }

  lemma {:induction false} FlatPage(image: seq<byte>, k: nat, under: Option<UserPage>)
    requires k < |image| <= 0x3FC0_0000
    ensures var g := PageOf(0x40_0000 + k);
            && Overlay([FlatSegment(image)], g, under) == Some(UserPage(SegmentPage(image, k / 4096), false, true))
            && SegmentPage(image, k / 4096)[(0x40_0000 + k) % 4096] == image[k]
  {
    var g := PageOf(0x40_0000 + k);
    assert PageOf(0x40_0000) == 0x400 && g == 0x400 + k / 4096;
    assert Offset(0x400, g) == k / 4096 && (0x40_0000 + k) % 4096 == k % 4096;
  }

  lemma {:induction false} TwoBytes(b: seq<byte>, i: nat, lo: byte)
    requires i + 2 <= |b|
    ensures Le(b, i, 2) == lo <==> b[i] == lo && b[i + 1] == 0
  {
    assert Le(b, i, 2) == b[i] + 256 * Le(b, i + 1, 1) && Le(b, i + 1, 1) == b[i + 1] + 256 * Le(b, i + 2, 0);
  }

  /** The header of a 64-bit little-endian x86 program that can be run, byte by byte. */
  predicate Runnable(b: seq<byte>) {
    && |b| >= 64 && b[0] == 0x7F && b[1] == 'E' as int && b[2] == 'L' as int && b[3] == 'F' as int && b[4] == 2 && b[5] == 1
    && b[16] == 2 && b[17] == 0 && b[18] == 0x3E && b[19] == 0
  }

  /** An image that is neither flat nor has such a header is turned down, and nothing is touched:
      one of fewer than four bytes, or one that begins with 0x7F and goes on differently. */
  lemma {:induction false} TurnedDown(p: Pools, owner: int, root: nat, image: seq<byte>)
    requires Sized(p) && root < MAX_USER_PT && (|image| < 4 || image[0] == 0x7F) && !Runnable(image)
    ensures ElfLoad(p, owner, root, image) == (p, None)
  {
    hide Le;
    if |image| >= 64 {
      TwoBytes(image, 16, 2);
      TwoBytes(image, 18, 0x3E);
    }
  }
}
