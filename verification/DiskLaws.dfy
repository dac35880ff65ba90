/**
 What each GridFS operation leaves in the table and on every sector of the disk, sector by
 sector and byte by byte.
 */
module DiskLaws {
  import opened Common
  import opened Gfs
  import opened GfsProofs

  /** Byte i of sector k of a file: the file's, or zero behind its end. */
  lemma {:induction false} FileSectorIs(data: seq<byte>, k: nat, i: nat)
    requires i < 512
    ensures FileSector(data, k)[i] == if 512 * k + i < |data| then data[512 * k + i] else 0
  {
  }

  /** Behind its 28 bytes the superblock is zero. */
  lemma {:induction false} SuperPadding(i: nat)
    requires 28 <= i < 512
    ensures SuperSector()[i] == 0
  {
    hide LeBytes, Crc32.Checksum;
  }

  /** An emptied inode has no magic and no size, and its path begins with a zero. */
  predicate Emptied(now: Inode, was: Inode) { now.valid == 0 && now.size == 0 && now.path[0] == 0 && now.path[1..] == was.path[1..] }

  lemma {:induction false} ClearedIs(t: Table, i: nat)
    requires i < 1280
    ensures Emptied(Cleared(t[i]), t[i]) && ClearedTable(t)[i] == Cleared(t[i])
  {
    assert ([0] + t[i].path[1..])[1..] == t[i].path[1..];
  }

  /** A table nothing was ever loaded into is all zeros. */
  lemma {:induction false} BlankIs(k: nat)
    requires k < 56
    ensures NoInode().valid == 0 && NoInode().size == 0 && NoInode().path[k] == 0
  {
  }

  // ---- formatting and mounting ----

  lemma {:induction false} FormatWrites(fs: Fs)
    ensures Format(fs).disk
            == Overwrite(Overwrite(Overwrite(fs.disk, 64, [SuperSector()]), 65, TableSectors(ClearedTable(fs.inodes))), 128, ZeroSectors(163_840))
  {
    hide TableSectors, ClearedTable, SuperSector, Apply;
    var t := ClearedTable(fs.inodes);
    var a, b, c := WritesAt(SUPER_LBA, [SuperSector()]), WritesAt(TABLE_LBA, TableSectors(t)),
                   WritesAt(DATA_LBA, ZeroSectors(INODE_MAX * SECTORS_PER_FILE));
    ApplyAppend(fs.disk, a + b, c);
    ApplyAppend(fs.disk, a, b);
    var d1 := Overwrite(fs.disk, SUPER_LBA, [SuperSector()]);
    var d2 := Overwrite(d1, TABLE_LBA, TableSectors(t));
    ApplyWritesAt(fs.disk, SUPER_LBA, [SuperSector()]);
    ApplyWritesAt(d1, TABLE_LBA, TableSectors(t));
    ApplyWritesAt(d2, DATA_LBA, ZeroSectors(INODE_MAX * SECTORS_PER_FILE));
  }

  /** A formatted file system is mounted and every inode empty. On disk sector 64 is the
      superblock, the inodes of sectors 65 to 127 are the emptied ones, every byte of sectors 128
      to 163967 is zero, those of the table among them, and no other sector has changed. */
  lemma {:induction false} FormatIs(fs: Fs)
    ensures var r := Format(fs);
            && r.mounted && |r.disk| == |fs.disk| && r.disk[64] == SuperSector()
            && (forall i :: 0 <= i < 1280 ==> Emptied(r.inodes[i], fs.inodes[i]))
            && (forall i :: 0 <= i < 504 ==> InodeAt(r.disk, i) == r.inodes[i])
            && (forall l, b :: 128 <= l < 163_968 && 0 <= b < 512 ==> r.disk[l][b] == 0)
            && (forall l :: (0 <= l < 64 || 163_968 <= l < |r.disk|) ==> r.disk[l] == fs.disk[l])
  {
    hide TableSectors, ClearedTable, SuperSector, Apply, Cleared, Emptied, InodeInSector, Format;
    var t := ClearedTable(fs.inodes);
    FormatWrites(fs);
    forall i | 0 <= i < 1280 ensures Emptied(t[i], fs.inodes[i]) { ClearedIs(fs.inodes, i); }
    var d1 := Overwrite(fs.disk, 64, [SuperSector()]);
    var d2 := Overwrite(d1, 65, TableSectors(t));
    assert TableSectors(t)[..160] == TableSectors(t);
    FormatInodes(fs);
    forall i | 0 <= i < 504 ensures InodeAt(Format(fs).disk, i) == t[i] {
      LoadPartly(d1, t, 160, i);
      assert 65 + i / 8 < 128;
    }
  }

  lemma {:induction false} FormatInodes(fs: Fs)
    ensures Format(fs).mounted && Format(fs).inodes == ClearedTable(fs.inodes)
  {
  }

  /** A mounted file system is left alone. One that is not is mounted: with the table on its disk
      when there is a valid superblock, and then nothing is written; formatted otherwise, by the
      164001 writes that lead from the old disk to the new one. */
  lemma {:induction false} MountIs(fs: Fs)
    ensures var r, log := TryMount(fs), MountLog(fs);
            && r.mounted && r.disk == Apply(fs.disk, log)
            && (fs.mounted ==> r == fs && log == [])
            && (!fs.mounted && SuperValid(fs.disk[64]) ==>
                  log == [] && r.disk == fs.disk && forall i :: 0 <= i < 1280 ==> r.inodes[i] == InodeAt(fs.disk, i))
            && (!fs.mounted && !SuperValid(fs.disk[64]) ==> |log| == 164_001 && r == Format(fs))
  {
    hide SuperValid, TableSectors, ClearedTable, SuperSector, InodeInSector;
  }

  // ---- writing and deleting ----

  /** The inode a file is written to: the first with its path, or else the first free one behind
      inode 0. */
  predicate Slot(t: Table, path: Path, i: nat) {
    && i < 1280
    && if exists j :: 0 <= j < 1280 && Matches(t[j], path)
       then Matches(t[i], path) && forall j :: 0 <= j < i ==> !Matches(t[j], path)
       else i >= 1 && !IsFile(t[i]) && forall j :: 1 <= j < i ==> IsFile(t[j])
  }

  lemma {:induction false} SlotIs(t: Table, path: Path, i: nat)
    ensures WriteSlot(t, path) == i <==> Slot(t, path, i)
  {
    hide Matches;
    if FindInode(t, path) >= 0 { assert Matches(t[FindInode(t, path)], path); }
  }

  /** A write changes one inode: its size, and for a new file the magic and the path, cut to 55
      bytes with a zero behind it. */
  lemma {:induction false} WriteInode(fs: Fs, path: Path, data: seq<byte>, i: nat)
    requires Slot(fs.inodes, path, i) && 1 <= |data| <= 65_536
    ensures Write(fs, path, data).Done?
    ensures var u := Write(fs, path, data).fs;
            var now, was, n := u.inodes[i], fs.inodes[i], Min(|path|, 55);
            && u.mounted && u.inodes == fs.inodes[i := now] && now.size == |data|
            && (Matches(was, path) ==> now.valid == was.valid && now.path == was.path)
            && (!Matches(was, path) ==> && now.valid == 0x4649_4C45 && now.path[..n] == path[..n] && now.path[n] == 0
                                        && now.path[n + 1..] == was.path[n + 1..])
  {
    hide Apply, FindInode, WriteLog;
    SlotIs(fs.inodes, path, i);
    var was, n := fs.inodes[i], Min(|path|, 55);
    var p := PathBytes(was.path, path);
    assert p[..n] == path[..n] && p[n] == 0 && p[n + 1..] == was.path[n + 1..];
    FoundThere(fs.inodes, path, i);
  }

  lemma {:induction false} FoundThere(t: Table, path: Path, i: nat)
    requires Slot(t, path, i)
    ensures FindInode(t, path) >= 0 <==> Matches(t[i], path)
    ensures FindInode(t, path) >= 0 ==> FindInode(t, path) == i
  {
    hide Matches, FindInode;
    if FindInode(t, path) >= 0 { assert Matches(t[FindInode(t, path)], path); }
  }

  /** On disk a write puts the data, padded with zeros to whole sectors, at sector 128 + 128 * i,
      and the new table at sectors 65 to 224, and nothing anywhere else. */
  lemma {:induction false} WriteSectors(fs: Fs, path: Path, data: seq<byte>, i: nat)
    requires Slot(fs.inodes, path, i) && 1 <= |data| <= 65_536
    ensures Write(fs, path, data).Done?
    ensures var (u, n) := (Write(fs, path, data).fs, (|data| + 511) / 512);
            && |u.disk| == |fs.disk|
            && (forall j :: 0 <= j < 1280 ==> InodeAt(u.disk, j) == u.inodes[j])
            && (forall k :: 0 <= k < n && 128 + 128 * i + k >= 225 ==> u.disk[128 + 128 * i + k] == FileSector(data, k))
            && (forall l :: 0 <= l < |u.disk| && !(65 <= l < 225) && !(128 + 128 * i <= l < 128 + 128 * i + n) ==> u.disk[l] == fs.disk[l])
  {
    hide Apply, FindInode, WrittenTable, TableSectors, FileSector, InodeInSector, Slot, IsFile, WritesAt;
    SlotIs(fs.inodes, path, i);
    SlotBound(fs.inodes, path, i);
    var t := WrittenTable(fs.inodes, path, |data|);
    ApplyAppend(fs.disk, WritesAt(DataLba(i), FileSectors(data)), WritesAt(TABLE_LBA, TableSectors(t)));
    var d1 := Overwrite(fs.disk, DataLba(i), FileSectors(data));
    ApplyWritesAt(fs.disk, DataLba(i), FileSectors(data));
    ApplyWritesAt(d1, TABLE_LBA, TableSectors(t));
    assert TableSectors(t)[..160] == TableSectors(t);
    forall j | 0 <= j < 1280 ensures InodeAt(Write(fs, path, data).fs.disk, j) == t[j] { LoadPartly(d1, t, 160, j); }
  }

  lemma {:induction false} SlotBound(t: Table, path: Path, i: nat)
    requires Slot(t, path, i)
    ensures i < 1280
  {
  }

  /** A delete succeeds exactly when some inode holds a file of that path; it empties the first
      such inode and writes the table at sectors 65 to 224, and nothing anywhere else. */
  lemma {:induction false} DeleteIs(fs: Fs, path: Path)
    ensures var r := Delete(fs, path);
            && (r.Done? <==> exists j :: 0 <= j < 1280 && Matches(fs.inodes[j], path))
            && (r.Done? ==>
                  && r.fs.mounted && |r.fs.disk| == |fs.disk|
                  && (exists i :: 0 <= i < 1280 && Matches(fs.inodes[i], path) && (forall j :: 0 <= j < i ==> !Matches(fs.inodes[j], path))
                                  && Emptied(r.fs.inodes[i], fs.inodes[i]) && r.fs.inodes == fs.inodes[i := r.fs.inodes[i]])
                  && (forall j :: 0 <= j < 1280 ==> InodeAt(r.fs.disk, j) == r.fs.inodes[j])
                  && (forall l :: 0 <= l < |fs.disk| && !(65 <= l < 225) ==> r.fs.disk[l] == fs.disk[l]))
  {
    hide Apply, TableSectors, InodeInSector, Emptied, Cleared, Matches;
    var i := FindInode(fs.inodes, path);
    if i >= 0 {
      ClearedIs(fs.inodes, i);
      var t := DeletedTable(fs.inodes, path);
      ApplyWritesAt(fs.disk, TABLE_LBA, TableSectors(t));
      assert TableSectors(t)[..160] == TableSectors(t);
      forall j | 0 <= j < 1280 ensures InodeAt(Delete(fs, path).fs.disk, j) == t[j] { LoadPartly(fs.disk, t, 160, j); }
    }
  }

  /** A refused write or delete is one of a file that is none, too long, or finds no inode. */
  lemma {:induction false} RefusedIff(fs: Fs, path: Path, data: seq<byte>)
    ensures Write(fs, path, data) == Refused <==> |data| == 0 || |data| > 65_536 || forall i: nat :: !Slot(fs.inodes, path, i)
  {
    hide FindInode, Slot, WriteLog, WrittenTable, Apply;
    var w := WriteSlot(fs.inodes, path);
    if w >= 0 { SlotIs(fs.inodes, path, w); }
    forall i: nat ensures Slot(fs.inodes, path, i) ==> w == i { SlotIs(fs.inodes, path, i); }
  }
}
