/**
 GridFS as a map from paths to bytes: what each operation does to the map, that the map
 survives a remount, and that a create or a delete cut short after any sector write
 leaves the old map or the new one.
 */
module GfsProofs {
  import opened Common
  import opened Gfs
  import Crc32

  // ---- sector writes ----

  lemma {:induction false} ApplyAppend(disk: Disk, a: seq<DiskWrite>, b: seq<DiskWrite>)
    ensures Apply(disk, a + b) == Apply(Apply(disk, a), b)
    decreases |b|
  {
    if b == [] {
      assert a + b == a;
    } else {
      assert (a + b)[..|a + b| - 1] == a + b[..|b| - 1];
      ApplyAppend(disk, a, b[..|b| - 1]);
    }
  }

  lemma {:induction false} ApplyWritesAt(disk: Disk, lba: nat, sectors: seq<Sector>)
    ensures Apply(disk, WritesAt(lba, sectors)) == Overwrite(disk, lba, sectors)
    decreases |sectors|
  {
    var log := WritesAt(lba, sectors);
    if sectors != [] {
      var n := |sectors| - 1;
      assert log[..n] == WritesAt(lba, sectors[..n]);
      ApplyWritesAt(disk, lba, sectors[..n]);
    }
    assert Apply(disk, log) == Overwrite(disk, lba, sectors);
  }

  lemma {:induction false} WritesAtPrefix(lba: nat, sectors: seq<Sector>, n: nat)
    requires n <= |sectors|
    ensures WritesAt(lba, sectors)[..n] == WritesAt(lba, sectors[..n])
  {
  }

  // ---- the table on disk ----

  lemma {:induction false} EncodedInSector(t: Table, k: nat, i: nat)
    requires k < TABLE_SECTORS && i < PER_SECTOR
    ensures InodeInSector(TableSector(t, k), i) == t[PER_SECTOR * k + i]
  {
    hide Encode, Decode;
    var s := TableSector(t, k);
    var b := s[i * INODE_SIZE..(i + 1) * INODE_SIZE];
    assert b == Encode(t[PER_SECTOR * k + i]);
    DecodeEncode(t[PER_SECTOR * k + i]);
  }

  /** A table written in part: the inodes of the sectors written are new. */
  lemma {:induction false} LoadPartly(disk: Disk, t: Table, m: nat, i: nat)
    requires m <= TABLE_SECTORS && i < INODE_MAX
    ensures InodeAt(Overwrite(disk, TABLE_LBA, TableSectors(t)[..m]), i) == if i / PER_SECTOR < m then t[i] else InodeAt(disk, i)
  {
    hide InodeInSector, TableSector;
    if i / PER_SECTOR < m {
      EncodedInSector(t, i / PER_SECTOR, i % PER_SECTOR);
    }
  }

  /** Two tables with the same files in the same inodes. */
  ghost predicate SameTable(a: Table, b: Table) {
    forall i :: 0 <= i < INODE_MAX ==> IsFile(a[i]) == IsFile(b[i]) && (IsFile(a[i]) ==> a[i] == b[i])
  }

  lemma {:induction false} SameFind(a: Table, b: Table, path: Path)
    requires SameTable(a, b)
    ensures FindInode(a, path) == FindInode(b, path) && FindFree(a) == FindFree(b)
  {
    hide Name;
    SameFindFrom(a, b, 0, path);
    SameFreeFrom(a, b, 1);
  }

  lemma {:induction false} SameFindFrom(a: Table, b: Table, i: nat, path: Path)
    requires SameTable(a, b)
    ensures FindFrom(a, i, path) == FindFrom(b, i, path)
    decreases INODE_MAX - i
  {
    hide Name;
    if i < INODE_MAX { SameFindFrom(a, b, i + 1, path); }
  }

  lemma {:induction false} SameFreeFrom(a: Table, b: Table, i: nat)
    requires SameTable(a, b)
    ensures FreeFrom(a, i) == FreeFrom(b, i)
    decreases INODE_MAX - i
  {
    if i < INODE_MAX { SameFreeFrom(a, b, i + 1); }
  }

  lemma {:induction false} SameLookup(a: Table, b: Table, disk: Disk, path: Path)
    requires SameTable(a, b)
    ensures Lookup(a, disk, path) == Lookup(b, disk, path)
  {
    hide FileData, FindInode;
    SameFind(a, b, path);
    FindIsFile(a, path);
  }

  lemma {:induction false} FindIsFile(t: Table, path: Path)
    ensures FindInode(t, path) >= 0 ==> IsFile(t[FindInode(t, path)]) && Name(t[FindInode(t, path)]) == path
  {
  }

  // ---- the invariant ----

  /** Inode 0 is never a file; files have names that fit and sizes that fit; no two files
      have one name. */
  ghost predicate TableOk(t: Table) {
    && !IsFile(t[0])
    && (forall i :: 0 <= i < INODE_MAX && IsFile(t[i]) ==> t[i].size <= FILE_MAX && |Name(t[i])| < PATH_MAX)
    && (forall i, j :: 0 <= i < j < INODE_MAX && IsFile(t[i]) && IsFile(t[j]) ==> Name(t[i]) != Name(t[j]))
  }

  ghost predicate Inv(fs: Fs) {
    && fs.mounted && SuperValid(fs.disk[SUPER_LBA]) && TableOk(fs.inodes)
    && SameTable(LoadTable(fs.disk), fs.inodes)
  }

  lemma {:induction false} SameTableOk(a: Table, b: Table)
    requires SameTable(a, b) && TableOk(a)
    ensures TableOk(b)
  {
    hide Name;
  }

  lemma {:induction false} SuperSealed()
    ensures SuperValid(SuperSector())
  {
    hide Crc32.Checksum, LeBytes, SuperFields;
    FieldsOk();
    SealedValid(SuperFields());
  }

  lemma {:induction false} FieldsOk()
    ensures SuperFields()[..8] == MAGIC && Le(SuperFields(), 8, 4) == GFS_VERSION
  {
    hide Le, LeBytes;
    var b := SuperFields();
    assert b[8..12] == LeBytes(GFS_VERSION, 4);
    assert Pow256(4) == TWO32;
    LeOfBytes(b, 8, GFS_VERSION, 4);
  }

  lemma {:induction false} SealedValid(fields: seq<byte>)
    requires |fields| == 24 && fields[..8] == MAGIC && Le(fields, 8, 4) == GFS_VERSION
    ensures SuperValid(SealedSector(fields))
  {
    hide Crc32.Checksum, Le, LeBytes;
    var s := SealedSector(fields);
    assert s[..24] == fields && s[..8] == fields[..8];
    assert s[8..12] == fields[8..12];
    LeSame(fields, 8, s, 8, 4);
    assert s[24..28] == LeBytes(Crc32.Checksum(fields), 4);
    Crc32.ChecksumBound(fields);
    LeOfBytes(s, 24, Crc32.Checksum(fields), 4);
  }

  /** A superblock changed within any four consecutive bytes of its first 28 is rejected,
      the stored checksum included: those 28 bytes of a valid one all lead to one register. */
  lemma {:induction false} ChangedSuperRejected(s: Sector, r: Sector, i: nat)
    requires SuperValid(s) && i + 4 <= 28 && s[..i] == r[..i] && s[i + 4..] == r[i + 4..] && s != r
    ensures !SuperValid(r)
  {
    hide Crc32.Checksum, Crc32.Updates, Crc32.Rounds, Le;
    if SuperValid(r) {
      Crc32.SealedResidue(s, 24);
      Crc32.SealedResidue(r, 24);
      var post := s[i + 4..28];
      assert post == s[i + 4..][..24 - i] && r[i + 4..28] == r[i + 4..][..24 - i];
      assert s[..28] == s[..i] + s[i..i + 4] + post;
      assert r[..28] == s[..i] + r[i..i + 4] + post;
      PartsOf(s, i);
      PartsOf(r, i);
      Crc32.BurstRegisters(s[..i], s[i..i + 4], r[i..i + 4], post);
    }
  }

  lemma {:induction false} PartsOf(s: Sector, i: nat)
    requires i + 4 <= SECTOR
    ensures s == s[..i] + s[i..i + 4] + s[i + 4..]
  {
  }

  // ---- the map ----

  ghost predicate SameFiles(a: Fs, b: Fs) {
    forall p: Path :: Lookup(a.inodes, a.disk, p) == Lookup(b.inodes, b.disk, p)
  }

  /** A disk mounts as the table its sectors agree with. */
  lemma {:induction false} MountAs(t: Table, was: Table, disk: Disk)
    requires TableOk(t) && SameTable(LoadTable(disk), t) && SuperValid(disk[SUPER_LBA])
    ensures var r := Init(Fs(false, was, disk));
            Inv(r) && r.disk == disk && SameFiles(Fs(true, t, disk), r)
  {
    hide SuperValid, LoadTable, Lookup, TableOk;
    var u := LoadTable(disk);
    SameTableSym(u, t);
    SameTableOk(t, u);
    SameTableRefl(u);
    forall p: Path ensures Lookup(t, disk, p) == Lookup(u, disk, p) { SameLookup(t, u, disk, p); }
  }

  lemma {:induction false} SameTableSym(a: Table, b: Table)
    requires SameTable(a, b)
    ensures SameTable(b, a)
  {
  }

  lemma {:induction false} SameTableRefl(a: Table)
    ensures SameTable(a, a)
  {
  }

  /** What is mounted is what was there. */
  lemma {:induction false} RemountSame(fs: Fs)
    requires Inv(fs)
    ensures Inv(Remount(fs)) && SameFiles(fs, Remount(fs))
  {
    hide SuperValid, LoadTable, Lookup, TableOk, SameTable, Init;
    MountAs(fs.inodes, fs.inodes, fs.disk);
    assert fs == Fs(true, fs.inodes, fs.disk);
  }

  lemma {:induction false} ZeroInode(i: nat)
    requires i < PER_SECTOR
    ensures !IsFile(InodeInSector(ZeroSector(), i))
  {
    var b: seq<byte> := ZeroSector()[i * INODE_SIZE..(i + 1) * INODE_SIZE];
    assert b[0] == 0;
    assert Le(b, 0, 4) == b[0] + 256 * Le(b, 1, 3);
  }

  lemma {:induction false} FormattedInode(disk: Disk, t: Table, i: nat)
    requires i < INODE_MAX
    ensures var d := Overwrite(Overwrite(disk, TABLE_LBA, TableSectors(ClearedTable(t))),
                               DATA_LBA, ZeroSectors(INODE_MAX * SECTORS_PER_FILE));
            !IsFile(InodeAt(d, i))
  {
    hide InodeInSector, TableSectors, ClearedTable;
    var c := ClearedTable(t);
    var d1 := Overwrite(disk, TABLE_LBA, TableSectors(c));
    var d := Overwrite(d1, DATA_LBA, ZeroSectors(INODE_MAX * SECTORS_PER_FILE));
    assert TableSectors(c)[..TABLE_SECTORS] == TableSectors(c);
    LoadPartly(disk, c, TABLE_SECTORS, i);
    ClearedNoFile(t, i);
    if TABLE_LBA + i / PER_SECTOR >= DATA_LBA {
      ZeroInode(i % PER_SECTOR);
    }
  }

  lemma {:induction false} ClearedNoFile(t: Table, i: nat)
    requires i < INODE_MAX
    ensures !IsFile(ClearedTable(t)[i])
  {
  }

  /** Formatting leaves the empty map, and so does mounting the formatted disk, although
      the pass that zeroes the data region of inode 0 runs over half of the table. */
  lemma {:induction false} FormatEmpty(fs: Fs)
    ensures Inv(Format(fs)) && Inv(Remount(Format(fs)))
    ensures forall p: Path :: Lookup(Format(fs).inodes, Format(fs).disk, p) == None
    ensures SameFiles(Format(fs), Remount(Format(fs)))
  {
    hide InodeAt, TableSectors, ClearedTable, SuperSector, SuperValid, Apply, FindInode, Remount;
    var t := ClearedTable(fs.inodes);
    var a, b, c := WritesAt(SUPER_LBA, [SuperSector()]), WritesAt(TABLE_LBA, TableSectors(t)),
                   WritesAt(DATA_LBA, ZeroSectors(INODE_MAX * SECTORS_PER_FILE));
    ApplyAppend(fs.disk, a + b, c);
    ApplyAppend(fs.disk, a, b);
    var d1 := Overwrite(fs.disk, SUPER_LBA, [SuperSector()]);
    var d2 := Overwrite(d1, TABLE_LBA, TableSectors(t));
    ApplyWritesAt(fs.disk, SUPER_LBA, [SuperSector()]);
    ApplyWritesAt(d1, TABLE_LBA, TableSectors(t));
    ApplyWritesAt(d2, DATA_LBA, ZeroSectors(INODE_MAX * SECTORS_PER_FILE));
    var r := Format(fs);
    SuperSealed();
    assert r.disk[SUPER_LBA] == SuperSector();
    forall i | 0 <= i < INODE_MAX ensures !IsFile(InodeAt(r.disk, i)) && !IsFile(t[i]) {
      FormattedInode(d1, fs.inodes, i);
      ClearedNoFile(fs.inodes, i);
    }
    forall p: Path ensures FindInode(t, p) < 0 { FindIsFile(t, p); }
    RemountSame(r);
  }

  // ---- data regions ----

  /** Sectors at or behind the data region of inode 1 hold no part of the table. */
  lemma {:induction false} DataApart(disk: Disk, lba: nat, sectors: seq<Sector>)
    requires lba >= DataLba(1)
    ensures Overwrite(disk, lba, sectors)[SUPER_LBA] == disk[SUPER_LBA]
    ensures LoadTable(Overwrite(disk, lba, sectors)) == LoadTable(disk)
  {
    hide InodeInSector;
    var d := Overwrite(disk, lba, sectors);
    forall i | 0 <= i < INODE_MAX ensures InodeAt(d, i) == InodeAt(disk, i) {}
  }

  /** Writing the table leaves the superblock and every file's data alone. */
  lemma {:induction false} TableApart(disk: Disk, t: Table, m: nat, slot: nat, size: nat)
    requires m <= TABLE_SECTORS && slot >= 1
    ensures var d := Overwrite(disk, TABLE_LBA, TableSectors(t)[..m]);
            FileData(d, slot, size) == FileData(disk, slot, size) && d[SUPER_LBA] == disk[SUPER_LBA]
  {
    hide TableSectors;
    var d := Overwrite(disk, TABLE_LBA, TableSectors(t)[..m]);
    if FileData(disk, slot, size).Some? {
      assert FileData(d, slot, size).value == FileData(disk, slot, size).value;
    }
  }

  /** Writing one file's data leaves the data of the others alone. */
  lemma {:induction false} FilesApart(disk: Disk, slot: nat, sectors: seq<Sector>, other: nat, size: nat)
    requires |sectors| <= SECTORS_PER_FILE && other != slot && size <= FILE_MAX
    ensures FileData(Overwrite(disk, DataLba(slot), sectors), other, size) == FileData(disk, other, size)
  {
    var d := Overwrite(disk, DataLba(slot), sectors);
    if FileData(disk, other, size).Some? {
      forall k | 0 <= k < size ensures d[DataLba(other) + k / SECTOR] == disk[DataLba(other) + k / SECTOR] {
        assert k / SECTOR < SECTORS_PER_FILE;
        if other < slot {
          assert other * SECTORS_PER_FILE + SECTORS_PER_FILE <= slot * SECTORS_PER_FILE;
        } else {
          assert slot * SECTORS_PER_FILE + SECTORS_PER_FILE <= other * SECTORS_PER_FILE;
        }
      }
      assert FileData(d, other, size).value == FileData(disk, other, size).value;
    }
  }

  lemma {:induction false} DataWritten(disk: Disk, slot: nat, data: seq<byte>)
    requires slot < INODE_MAX && |data| <= FILE_MAX
    ensures FileData(Overwrite(disk, DataLba(slot), FileSectors(data)), slot, |data|) == Some(data)
  {
    var d := Overwrite(disk, DataLba(slot), FileSectors(data));
    assert SectorCount(|data|) <= SECTORS_PER_FILE;
    assert slot * SECTORS_PER_FILE <= (INODE_MAX - 1) * SECTORS_PER_FILE;
    var r := FileData(d, slot, |data|).value;
    forall k | 0 <= k < |data| ensures r[k] == data[k] {
      assert d[DataLba(slot) + k / SECTOR] == FileSector(data, k / SECTOR);
      assert k / SECTOR * SECTOR + k % SECTOR == k;
    }
    assert r == data;
  }

  /** A file within the cap always lies on the disk. */
  lemma {:induction false} FitsOnDisk(disk: Disk, slot: nat, size: nat)
    requires slot < INODE_MAX && size <= FILE_MAX
    ensures FileData(disk, slot, size).Some?
  {
    assert SectorCount(size) <= SECTORS_PER_FILE;
    assert slot * SECTORS_PER_FILE <= (INODE_MAX - 1) * SECTORS_PER_FILE;
  }

  // ---- names ----

  lemma {:induction false} CStringOf(b: seq<byte>, path: Path)
    requires |path| < |b| && b[..|path|] == path && b[|path|] == 0
    ensures CString(b) == path
  {
    if path != [] {
      assert b[0] == path[0];
      assert b[1..][..|path| - 1] == path[1..];
      CStringOf(b[1..], path[1..]);
    }
  }

  lemma {:induction false} StoredName(was: seq<byte>, path: Path)
    requires |was| == PATH_MAX
    ensures CString(PathBytes(was, path)) == path[..Min(|path|, PATH_MAX - 1)]
  {
    CStringOf(PathBytes(was, path), path[..Min(|path|, PATH_MAX - 1)]);
  }

  lemma {:induction false} FindUnique(t: Table, i: nat, path: Path)
    requires TableOk(t) && i < INODE_MAX && Matches(t[i], path)
    ensures FindInode(t, path) == i
  {
    hide Name;
  }

  // ---- a table part written ----

  /** t and u hold the same files but for inode s. */
  predicate OneDiffers(t: Table, u: Table, s: nat)
    requires s < INODE_MAX
  {
    u == t[s := u[s]]
  }

  /** The disk after m sectors of the new table: as the sector of inode s is written or not,
      what loads is the new table or the old one. */
  lemma {:induction false} PartlyStored(disk: Disk, t: Table, u: Table, s: nat, m: nat)
    requires s < INODE_MAX && OneDiffers(t, u, s) && SameTable(LoadTable(disk), t) && m <= TABLE_SECTORS
    ensures SameTable(LoadTable(Overwrite(disk, TABLE_LBA, TableSectors(u)[..m])), if s / PER_SECTOR < m then u else t)
  {
    hide InodeAt, TableSectors;
    var d := Overwrite(disk, TABLE_LBA, TableSectors(u)[..m]);
    forall i | 0 <= i < INODE_MAX ensures LoadTable(d)[i] == if i / PER_SECTOR < m then u[i] else LoadTable(disk)[i] {
      LoadPartly(disk, u, m, i);
    }
  }

  /** Lookups depend on the data of files only. */
  lemma {:induction false} LookupFrame(t: Table, d: Disk, e: Disk, p: Path)
    requires TableOk(t)
    requires forall i :: 1 <= i < INODE_MAX && IsFile(t[i]) ==> FileData(e, i, t[i].size) == FileData(d, i, t[i].size)
    ensures Lookup(t, e, p) == Lookup(t, d, p)
  {
    hide FileData, Name;
  }

  /** The disk with part of a new table mounts as the one table or the other, over the
      file data that was there. */
  lemma {:induction false} MountPartly(disk: Disk, t: Table, u: Table, s: nat, m: nat, was: Table)
    requires s < INODE_MAX && OneDiffers(t, u, s) && SameTable(LoadTable(disk), t) && m <= TABLE_SECTORS
    requires SuperValid(disk[SUPER_LBA]) && TableOk(t) && TableOk(u)
    ensures var r := Init(Fs(false, was, Overwrite(disk, TABLE_LBA, TableSectors(u)[..m])));
            Inv(r) && SameFiles(Fs(true, if s / PER_SECTOR < m then u else t, disk), r)
  {
    hide SuperValid, LoadTable, Lookup, TableSectors, TableOk, SameTable, Init, FileData;
    var d := Overwrite(disk, TABLE_LBA, TableSectors(u)[..m]);
    var v := if s / PER_SECTOR < m then u else t;
    PartlyStored(disk, t, u, s, m);
    TableApart(disk, u, m, 1, 0);
    MountAs(v, was, d);
    forall p: Path ensures Lookup(v, d, p) == Lookup(v, disk, p) {
      forall i | 1 <= i < INODE_MAX && IsFile(v[i]) ensures FileData(d, i, v[i].size) == FileData(disk, i, v[i].size) {
        TableApart(disk, u, m, i, v[i].size);
      }
      LookupFrame(v, disk, d, p);
    }
  }

  // ---- write ----

  /** The table with a file written is sound when the name fits. */
  lemma {:induction false} WrittenOk(t: Table, path: Path, size: nat)
    requires TableOk(t) && WriteSlot(t, path) >= 0 && size <= FILE_MAX && |path| < PATH_MAX
    ensures var u := WrittenTable(t, path, size);
            var s := WriteSlot(t, path);
            && s >= 1 && OneDiffers(t, u, s) && TableOk(u) && Matches(u[s], path) && u[s].size == size
            && (IsFile(t[s]) ==> Name(t[s]) == path)
  {
    hide CString, PathBytes;
    var s := WriteSlot(t, path);
    FindIsFile(t, path);
    StoredName(t[s].path, path);
    assert path[..|path|] == path;
    var u := WrittenTable(t, path, size);
    forall i, j | 0 <= i < j < INODE_MAX && IsFile(u[i]) && IsFile(u[j]) ensures Name(u[i]) != Name(u[j]) {
      if i == s && FindInode(t, path) < 0 { assert !Matches(t[j], path); }
      if j == s && FindInode(t, path) < 0 { assert !Matches(t[i], path); }
    }
  }

  /** Lookups in the written table over the written data. */
  lemma {:induction false} WrittenLookup(t: Table, disk: Disk, path: Path, data: seq<byte>, p: Path)
    requires TableOk(t) && WriteSlot(t, path) >= 0 && |data| <= FILE_MAX && |path| < PATH_MAX
    ensures var d := Overwrite(disk, DataLba(WriteSlot(t, path)), FileSectors(data));
            Lookup(WrittenTable(t, path, |data|), d, p) == if p == path then Some(data) else Lookup(t, disk, p)
  {
    hide FileData, Name, WriteSlot, WrittenTable, FileSectors, SectorCount;
    var s, u := WriteSlot(t, path), WrittenTable(t, path, |data|);
    var d := Overwrite(disk, DataLba(s), FileSectors(data));
    WrittenOk(t, path, |data|);
    CountBound(|data|);
    if p == path {
      FindUnique(u, s, path);
      DataWritten(disk, s, data);
    } else {
      SameFindBut(t, u, s, path, p);
      var i := FindInode(t, p);
      if i >= 0 {
        FindIsFile(t, p);
        FilesApart(disk, s, FileSectors(data), i, t[i].size);
      }
    }
  }

  lemma {:induction false} CountBound(size: nat)
    requires size <= FILE_MAX
    ensures SectorCount(size) <= SECTORS_PER_FILE
  {
  }

  /** A table that differs in the inode of one path finds every other path as before. */
  lemma {:induction false} SameFindBut(t: Table, u: Table, s: nat, path: Path, p: Path)
    requires TableOk(t) && TableOk(u) && s < INODE_MAX && OneDiffers(t, u, s) && p != path
    requires IsFile(t[s]) ==> Name(t[s]) == path
    requires IsFile(u[s]) ==> Name(u[s]) == path
    ensures FindInode(u, p) == FindInode(t, p)
    ensures FindInode(t, p) >= 0 ==> FindInode(t, p) != s && u[FindInode(t, p)] == t[FindInode(t, p)]
  {
    hide Name;
    var i := FindInode(t, p);
    if i >= 0 {
      FindIsFile(t, p);
      FindUnique(u, i, p);
    }
  }

  /** b's map is a's with path bound to data. */
  ghost predicate Bound(a: Fs, b: Fs, path: Path, data: seq<byte>) {
    forall p: Path :: Lookup(b.inodes, b.disk, p) == if p == path then Some(data) else Lookup(a.inodes, a.disk, p)
  }

  /** b's map is a's without path. */
  ghost predicate Unbound(a: Fs, b: Fs, path: Path) {
    forall p: Path :: Lookup(b.inodes, b.disk, p) == if p == path then None else Lookup(a.inodes, a.disk, p)
  }

  /** The disk after a prefix of the writes of `gfs_write_file`. */
  lemma {:induction false} WritePrefix(t: Table, disk: Disk, path: Path, data: seq<byte>, n: nat)
    requires WriteSlot(t, path) >= 0 && |data| <= FILE_MAX && n <= |WriteLog(t, path, data)|
    ensures var (lba, fs, ts) := (DataLba(WriteSlot(t, path)), FileSectors(data), TableSectors(WrittenTable(t, path, |data|)));
            Apply(disk, WriteLog(t, path, data)[..n])
            == if n <= |fs| then Overwrite(disk, lba, fs[..n])
               else Overwrite(Overwrite(disk, lba, fs), TABLE_LBA, ts[..n - |fs|])
  {
    hide WriteSlot, WrittenTable, FileSectors, TableSectors, Overwrite, Apply, DataLba;
    var lba, fs, ts := DataLba(WriteSlot(t, path)), FileSectors(data), TableSectors(WrittenTable(t, path, |data|));
    var log := WriteLog(t, path, data);
    if n <= |fs| {
      assert log[..n] == WritesAt(lba, fs)[..n];
      WritesAtPrefix(lba, fs, n);
      ApplyWritesAt(disk, lba, fs[..n]);
    } else {
      assert log[..n] == WritesAt(lba, fs) + WritesAt(TABLE_LBA, ts)[..n - |fs|];
      ApplyAppend(disk, WritesAt(lba, fs), WritesAt(TABLE_LBA, ts)[..n - |fs|]);
      WritesAtPrefix(TABLE_LBA, ts, n - |fs|);
      ApplyWritesAt(disk, lba, fs);
      ApplyWritesAt(Overwrite(disk, lba, fs), TABLE_LBA, ts[..n - |fs|]);
    }
  }

  /** A write that is carried out binds the path to the bytes, and to nothing else anything;
      the table on disk is again the table in memory. */
  lemma {:induction false} WriteBinds(fs: Fs, path: Path, data: seq<byte>)
    requires Inv(fs) && Write(fs, path, data).Done? && |path| < PATH_MAX
    ensures var r := Write(fs, path, data).fs; Inv(r) && Bound(fs, r, path, data)
  {
    hide SuperValid, Lookup, FileSectors, TableSectors, TableOk, SameTable, FileData, LoadTable, WrittenTable, WriteSlot, DataLba;
    var r := Write(fs, path, data).fs;
    var u, s := WrittenTable(fs.inodes, path, |data|), WriteSlot(fs.inodes, path);
    var log := WriteLog(fs.inodes, path, data);
    assert log[..|log|] == log;
    WritePrefix(fs.inodes, fs.disk, path, data, |log|);
    assert TableSectors(u)[..TABLE_SECTORS] == TableSectors(u);
    var d := Overwrite(fs.disk, DataLba(s), FileSectors(data));
    WrittenOk(fs.inodes, path, |data|);
    SlotBehind(s);
    DataApart(fs.disk, DataLba(s), FileSectors(data));
    PartlyStored(d, fs.inodes, u, s, TABLE_SECTORS);
    TableApart(d, u, TABLE_SECTORS, 1, 0);
    forall p: Path ensures Lookup(r.inodes, r.disk, p) == if p == path then Some(data) else Lookup(fs.inodes, fs.disk, p) {
      WrittenLookup(fs.inodes, fs.disk, path, data, p);
      forall i | 1 <= i < INODE_MAX && IsFile(u[i]) ensures FileData(r.disk, i, u[i].size) == FileData(d, i, u[i].size) {
        TableApart(d, u, TABLE_SECTORS, i, u[i].size);
      }
      LookupFrame(u, d, r.disk, p);
    }
  }

  lemma {:induction false} SlotBehind(s: nat)
    requires s >= 1
    ensures DataLba(s) >= DataLba(1)
  {
  }

  // ---- crash atomicity ----

  /** The disk after n writes of a log, mounted. */
  function CrashedAt(fs: Fs, log: seq<DiskWrite>, n: nat): Fs
    requires n <= |log|
  {
    Init(Fs(false, fs.inodes, Apply(fs.disk, log[..n])))
  }

  /** Data in the region of an inode that is no file is seen by no lookup. */
  lemma {:induction false} FreeRegion(t: Table, disk: Disk, s: nat, sectors: seq<Sector>, p: Path)
    requires TableOk(t) && s < INODE_MAX && !IsFile(t[s]) && |sectors| <= SECTORS_PER_FILE
    ensures Lookup(t, Overwrite(disk, DataLba(s), sectors), p) == Lookup(t, disk, p)
  {
    hide FileData, Name, Lookup;
    var d := Overwrite(disk, DataLba(s), sectors);
    forall i | 1 <= i < INODE_MAX && IsFile(t[i]) ensures FileData(d, i, t[i].size) == FileData(disk, i, t[i].size) {
      FilesApart(disk, s, sectors, i, t[i].size);
    }
    LookupFrame(t, disk, d, p);
  }

  /** A create stopped after any number of sector writes and mounted again: the old map
      until the sector of the new inode is written, the new map from then on. */
  lemma {:induction false} CreateAtomic(fs: Fs, path: Path, data: seq<byte>, n: nat)
    requires Inv(fs) && FindInode(fs.inodes, path) < 0 && |path| < PATH_MAX
    requires Write(fs, path, data).Done? && n <= |Write(fs, path, data).log|
    ensures var r := CrashedAt(fs, Write(fs, path, data).log, n);
            && Inv(r)
            && if n <= SectorCount(|data|) + FindFree(fs.inodes) / PER_SECTOR then SameFiles(fs, r) else Bound(fs, r, path, data)
  {
    hide SuperValid, Lookup, FileSectors, TableSectors, TableOk, SameTable, FileData, LoadTable, WrittenTable, DataLba, Init,
         SectorCount, Overwrite;
    var t := fs.inodes;
    var u, s := WrittenTable(t, path, |data|), WriteSlot(t, path);
    var fd := FileSectors(data);
    WritePrefix(t, fs.disk, path, data, n);
    WrittenOk(t, path, |data|);
    SlotBehind(s);
    CountBound(|data|);
    var part := if n <= |fd| then fd[..n] else fd;
    var d := Overwrite(fs.disk, DataLba(s), part);
    DataApart(fs.disk, DataLba(s), part);
    if n <= |fd| {
      MountAs(t, fs.inodes, d);
      forall p: Path ensures Lookup(t, d, p) == Lookup(t, fs.disk, p) { FreeRegion(t, fs.disk, s, part, p); }
    } else {
      MountPartly(d, t, u, s, n - |fd|, fs.inodes);
      forall p: Path
        ensures Lookup(t, d, p) == Lookup(t, fs.disk, p)
        ensures Lookup(u, d, p) == if p == path then Some(data) else Lookup(t, fs.disk, p)
      {
        FreeRegion(t, fs.disk, s, part, p);
        WrittenLookup(t, fs.disk, path, data, p);
      }
    }
  }

  /** The table with a file deleted. */
  lemma {:induction false} DeletedOk(t: Table, disk: Disk, path: Path)
    requires TableOk(t) && FindInode(t, path) >= 0
    ensures var (u, s) := (DeletedTable(t, path), FindInode(t, path));
            && s >= 1 && OneDiffers(t, u, s) && TableOk(u)
            && forall p: Path :: Lookup(u, disk, p) == if p == path then None else Lookup(t, disk, p)
  {
    hide Name, FileData;
    var s, u := FindInode(t, path), DeletedTable(t, path);
    FindIsFile(t, path);
    forall p: Path ensures Lookup(u, disk, p) == if p == path then None else Lookup(t, disk, p) {
      if p == path {
        FindIsFile(u, p);
        if FindInode(u, p) >= 0 && FindInode(u, p) != s { NamesDiffer(t, s, FindInode(u, p)); }
      } else {
        SameFindBut(t, u, s, path, p);
      }
    }
  }

  lemma {:induction false} NamesDiffer(t: Table, i: nat, j: nat)
    requires TableOk(t) && i < INODE_MAX && j < INODE_MAX && IsFile(t[i]) && IsFile(t[j]) && i != j
    ensures Name(t[i]) != Name(t[j])
  {
    hide Name;
  }

  /** A delete stopped after any number of sector writes and mounted again: the old map
      until the sector of the inode is written, the map without the path from then on. */
  lemma {:induction false} DeleteAtomic(fs: Fs, path: Path, n: nat)
    requires Inv(fs) && Delete(fs, path).Done? && n <= |Delete(fs, path).log|
    ensures var r := CrashedAt(fs, Delete(fs, path).log, n);
            Inv(r) && if n <= FindInode(fs.inodes, path) / PER_SECTOR then SameFiles(fs, r) else Unbound(fs, r, path)
  {
    hide SuperValid, Lookup, TableSectors, TableOk, SameTable, FileData, LoadTable, Init, Overwrite, FindInode;
    var t := fs.inodes;
    var s, u := FindInode(t, path), DeletedTable(t, path);
    var ts := TableSectors(u);
    WritesAtPrefix(TABLE_LBA, ts, n);
    ApplyWritesAt(fs.disk, TABLE_LBA, ts[..n]);
    DeletedOk(t, fs.disk, path);
    MountPartly(fs.disk, t, u, s, n, fs.inodes);
  }

  lemma {:induction false} DeleteUnbinds(fs: Fs, path: Path)
    requires Inv(fs) && Delete(fs, path).Done?
    ensures var r := Delete(fs, path).fs; Inv(r) && Unbound(fs, r, path)
  {
    hide SuperValid, Lookup, TableSectors, TableOk, SameTable, FileData, LoadTable, FindInode, DeletedTable;
    var t, r := fs.inodes, Delete(fs, path).fs;
    var s, u := FindInode(t, path), DeletedTable(t, path);
    var ts := TableSectors(u);
    assert ts[..TABLE_SECTORS] == ts;
    ApplyWritesAt(fs.disk, TABLE_LBA, ts);
    DeletedOk(t, fs.disk, path);
    PartlyStored(fs.disk, t, u, s, TABLE_SECTORS);
    TableApart(fs.disk, u, TABLE_SECTORS, 1, 0);
    forall p: Path ensures Lookup(u, r.disk, p) == Lookup(u, fs.disk, p) {
      forall i | 1 <= i < INODE_MAX && IsFile(u[i]) ensures FileData(r.disk, i, u[i].size) == FileData(fs.disk, i, u[i].size) {
        TableApart(fs.disk, u, TABLE_SECTORS, i, u[i].size);
      }
      LookupFrame(u, fs.disk, r.disk, p);
    }
  }

  // ---- long paths ----

  /** A path longer than 55 bytes is never found: what is stored for it is cut. */
  lemma {:induction false} LongPathNotFound(t: Table, path: Path)
    requires TableOk(t) && |path| >= PATH_MAX
    ensures FindInode(t, path) < 0
  {
    hide Name;
    FindIsFile(t, path);
  }

  /** A file that has been written can be read back exactly when its path fits. */
  lemma {:induction false} ReadableIffFits(fs: Fs, path: Path, data: seq<byte>)
    requires Inv(fs) && Write(fs, path, data).Done?
    ensures Read(Write(fs, path, data).fs, path, |data|) == Some(data) <==> |path| < PATH_MAX
  {
    hide FileData, Lookup, Name, WrittenTable, Apply, FindInode, TableOk;
    var r := Write(fs, path, data).fs;
    if |path| < PATH_MAX {
      WriteBinds(fs, path, data);
      assert Lookup(r.inodes, r.disk, path) == Some(data);
      ReadLookup(r, path, |data|);
    } else {
      LongPathNotFound(fs.inodes, path);
      CutNotFound(fs.inodes, path, |data|);
    }
  }

  lemma {:induction false} CutNotFound(t: Table, path: Path, size: nat)
    requires TableOk(t) && WriteSlot(t, path) >= 0 && size < TWO32 && |path| >= PATH_MAX && FindInode(t, path) < 0
    ensures FindInode(WrittenTable(t, path, size), path) < 0
  {
    hide CString, PathBytes;
    var u, s := WrittenTable(t, path, size), WriteSlot(t, path);
    StoredName(t[s].path, path);
    FindIsFile(u, path);
  }

  /** Reading is looking up, when the buffer is large enough. */
  lemma {:induction false} ReadLookup(fs: Fs, path: Path, cap: nat)
    requires TableOk(fs.inodes)
    ensures Read(fs, path, cap)
            == match Lookup(fs.inodes, fs.disk, path)
               case None => None
               case Some(data) => if |data| <= cap then Some(data) else None
  {
    var i := FindInode(fs.inodes, path);
    if i >= 0 { FitsOnDisk(fs.disk, i, fs.inodes[i].size); }
  }

  // ---- room ----

  function FileSlots(t: Table): (s: set<int>) { set i | 0 <= i < INODE_MAX && IsFile(t[i]) }

  function Names(t: Table, s: set<int>): set<Path>
    requires forall i :: i in s ==> 0 <= i < INODE_MAX
  {
    set i | i in s :: Name(t[i])
  }

  lemma {:induction false} NamesCount(t: Table, s: set<int>)
    requires TableOk(t) && s <= FileSlots(t)
    ensures |Names(t, s)| == |s|
    decreases |s|
  {
    hide Name;
    if s != {} {
      var i :| i in s;
      var s' := s - {i};
      NamesCount(t, s');
      assert Names(t, s) == Names(t, s') + {Name(t[i])};
      forall j | j in s' ensures Name(t[j]) != Name(t[i]) {
        NamesDiffer(t, i, j);
      }
      assert Name(t[i]) !in Names(t, s');
    }
  }

  function Range(lo: int, hi: int): (s: set<int>)
    requires lo <= hi
    ensures |s| == hi - lo && forall i :: i in s <==> lo <= i < hi
    decreases hi - lo
  {
    if lo == hi then {} else Range(lo, hi - 1) + {hi - 1}
  }

  lemma {:induction false} SubsetCount(a: set<int>, b: set<int>)
    requires a <= b
    ensures |a| <= |b| && (|a| == |b| ==> a == b)
  {
    assert b * a == a;
    assert |b - a| == |b| - |a|;
    if |a| == |b| { assert b - a == {}; }
  }

  /** There is a free inode exactly while fewer than 1279 files exist. */
  lemma {:induction false} RoomIff(t: Table)
    requires TableOk(t)
    ensures |FileSlots(t)| <= INODE_MAX - 1
    ensures FindFree(t) >= 0 <==> |FileSlots(t)| < INODE_MAX - 1
  {
    hide Name;
    assert FileSlots(t) <= Range(1, INODE_MAX);
    SubsetCount(FileSlots(t), Range(1, INODE_MAX));
    if FindFree(t) < 0 {
      assert FileSlots(t) == Range(1, INODE_MAX);
    } else {
      assert FindFree(t) in Range(1, INODE_MAX) && FindFree(t) !in FileSlots(t);
    }
  }

  // ---- refinement of a finite map ----

  datatype Op = Put(path: Path, data: seq<byte>) | Remove(path: Path) | Get(path: Path, cap: nat) | Reboot

  datatype Answer = Ok | Failed | Content(data: seq<byte>)

  type Files = map<Path, seq<byte>>

  /** The file system's side of an operation. */
  function Do(fs: Fs, op: Op): (Fs, Answer) {
    match op
    case Put(path, data) =>
      (match Write(fs, path, data) case Refused => (fs, Failed) case Done(r, _) => (r, Ok))
    case Remove(path) =>
      (match Delete(fs, path) case Refused => (fs, Failed) case Done(r, _) => (r, Ok))
    case Get(path, cap) =>
      (match Read(fs, path, cap) case None => (fs, Failed) case Some(data) => (fs, Content(data)))
    case Reboot => (Remount(fs), Ok)
  }

  /** The same operation on a finite map. */
  function Spec(m: Files, op: Op): (Files, Answer) {
    match op
    case Put(path, data) =>
      if 1 <= |data| <= FILE_MAX && (path in m || |m| < INODE_MAX - 1) then (m[path := data], Ok) else (m, Failed)
    case Remove(path) => if path in m then (m - {path}, Ok) else (m, Failed)
    case Get(path, cap) => if path in m && |m[path]| <= cap then (m, Content(m[path])) else (m, Failed)
    case Reboot => (m, Ok)
  }

  function Answers(fs: Fs, ops: seq<Op>): seq<Answer>
    decreases |ops|
  {
    if ops == [] then [] else [Do(fs, ops[0]).1] + Answers(Do(fs, ops[0]).0, ops[1..])
  }

  function SpecAnswers(m: Files, ops: seq<Op>): seq<Answer>
    decreases |ops|
  {
    if ops == [] then [] else [Spec(m, ops[0]).1] + SpecAnswers(Spec(m, ops[0]).0, ops[1..])
  }

  predicate Short(op: Op) { op.Reboot? || |op.path| < PATH_MAX }

  function InMap(m: Files, p: Path): Option<seq<byte>> { if p in m then Some(m[p]) else None }

  ghost predicate Refines(fs: Fs, m: Files) {
    Inv(fs) && forall p: Path :: Lookup(fs.inodes, fs.disk, p) == InMap(m, p)
  }

  lemma {:induction false} RefinesCount(fs: Fs, m: Files)
    requires Refines(fs, m)
    ensures |m| == |FileSlots(fs.inodes)|
  {
    hide Name, LoadTable, SuperValid, FileData;
    var t := fs.inodes;
    NamesCount(t, FileSlots(t));
    forall p: Path ensures p in m.Keys <==> p in Names(t, FileSlots(t)) {
      assert Lookup(t, fs.disk, p) == InMap(m, p);
      FindIsFile(t, p);
      if FindInode(t, p) >= 0 {
        FitsOnDisk(fs.disk, FindInode(t, p), t[FindInode(t, p)].size);
        assert FindInode(t, p) in FileSlots(t);
      }
    }
    assert m.Keys == Names(t, FileSlots(t));
  }

  lemma {:induction false} FoundIff(fs: Fs, m: Files, path: Path)
    requires Refines(fs, m)
    ensures FindInode(fs.inodes, path) >= 0 <==> path in m
  {
    hide Name, LoadTable, SuperValid, FileData, FindInode;
    assert Lookup(fs.inodes, fs.disk, path) == InMap(m, path);
    var i := FindInode(fs.inodes, path);
    FindIsFile(fs.inodes, path);
    if i >= 0 { FitsOnDisk(fs.disk, i, fs.inodes[i].size); }
  }

  /** One operation: the answers agree, and the states again. */
  lemma {:induction false} StepRefines(fs: Fs, m: Files, op: Op)
    requires Refines(fs, m) && Short(op)
    ensures Do(fs, op).1 == Spec(m, op).1 && Refines(Do(fs, op).0, Spec(m, op).0)
  {
    hide Inv, Lookup, Write, Delete, Read, Remount;
    match op
    case Put(path, data) => PutRefines(fs, m, path, data);
    case Remove(path) => RemoveRefines(fs, m, path);
    case Get(path, cap) =>
      InvTable(fs);
      ReadLookup(fs, path, cap);
      assert Lookup(fs.inodes, fs.disk, path) == InMap(m, path);
    case Reboot =>
      RemountSame(fs);
  }

  lemma {:induction false} InvTable(fs: Fs)
    requires Inv(fs)
    ensures TableOk(fs.inodes)
  {
  }

  lemma {:induction false} PutRefines(fs: Fs, m: Files, path: Path, data: seq<byte>)
    requires Refines(fs, m) && |path| < PATH_MAX
    ensures Write(fs, path, data).Done? <==> Spec(m, Put(path, data)).1 == Ok
    ensures Write(fs, path, data).Done? ==> Refines(Write(fs, path, data).fs, m[path := data])
  {
    hide Inv, Lookup, TableOk, WriteLog, WrittenTable, FileSlots, FindInode, FindFree;
    InvTable(fs);
    FoundIff(fs, m, path);
    RefinesCount(fs, m);
    RoomIff(fs.inodes);
    if Write(fs, path, data).Done? { WriteBinds(fs, path, data); }
  }

  lemma {:induction false} RemoveRefines(fs: Fs, m: Files, path: Path)
    requires Refines(fs, m)
    ensures Delete(fs, path).Done? <==> path in m
    ensures Delete(fs, path).Done? ==> Refines(Delete(fs, path).fs, m - {path})
  {
    hide Inv, Lookup, DeletedTable, FindInode;
    FoundIff(fs, m, path);
    if Delete(fs, path).Done? { DeleteUnbinds(fs, path); }
  }

  /** Over any run, reboots included, GridFS answers as a finite map does: every write,
      read and delete succeeds or fails as it would there, and reads return the last bytes
      written. */
  lemma {:induction false} RunRefines(fs: Fs, m: Files, ops: seq<Op>)
    requires Refines(fs, m) && forall k :: 0 <= k < |ops| ==> Short(ops[k])
    ensures Answers(fs, ops) == SpecAnswers(m, ops)
    decreases |ops|
  {
    hide Refines, Do, Spec, Short;
    if ops != [] {
      assert Short(ops[0]);
      StepRefines(fs, m, ops[0]);
      RunRefines(Do(fs, ops[0]).0, Spec(m, ops[0]).0, ops[1..]);
    }
  }

  /** A formatted disk starts as the empty map. */
  lemma {:induction false} FormatRefines(fs: Fs, ops: seq<Op>)
    requires forall k :: 0 <= k < |ops| ==> Short(ops[k])
    ensures Answers(Format(fs), ops) == SpecAnswers(map[], ops)
  {
    hide Inv, Lookup, Format, Answers, SpecAnswers;
    FormatEmpty(fs);
    RunRefines(Format(fs), map[], ops);
  }
}
