/**
 The host tool that puts files on a GridFS disk image, and the kernel that reads them back.
 */
module GfsHost {
  import opened Common
  import opened Gfs
  import opened GfsProofs

  /** `encode_inode`: the path cut to 55 bytes and padded with zeros. */
  function HostInode(path: Path, size: nat): (x: Inode)
    requires size < TWO32
  {
    Inode(INODE_MAGIC, size, PathBytes(seq(PATH_MAX, _ => 0), path))
  }

  /** A table sector with the 64 bytes of one inode replaced. */
  function PutInode(s: Sector, i: nat, x: Inode): (r: Sector)
    requires i < PER_SECTOR
  {
    s[..i * INODE_SIZE] + Encode(x) + s[(i + 1) * INODE_SIZE..]
  }

  /** All 128 sectors of a data region. */
  function Region(payload: seq<byte>): (s: seq<Sector>)
    ensures |s| == SECTORS_PER_FILE
  {
    seq(SECTORS_PER_FILE, k requires 0 <= k => FileSector(payload, k))
  }

  /** `seed_file` */
  function Seed(disk: Disk, slot: nat, path: Path, payload: seq<byte>): (d: Disk)
    requires slot < INODE_MAX && |payload| <= FILE_MAX
  {
    var lba := TABLE_LBA + slot / PER_SECTOR;
    Overwrite(disk[lba := PutInode(disk[lba], slot % PER_SECTOR, HostInode(path, |payload|))], DataLba(slot), Region(payload))
  }

  /** `install_file`: the image afterwards, or none where the tool gives up. */
  function Install(disk: Disk, path: Path, payload: seq<byte>): (d: Option<Disk>) {
    if path == [] || path[0] != 0x2F then None
    else
      var slot := WriteSlot(LoadTable(disk), path);
      if slot < 0 || |payload| > FILE_MAX then None else Some(Seed(disk, slot, path, payload))
  }

  lemma {:induction false} PutInodeReads(s: Sector, i: nat, x: Inode, j: nat)
    requires i < PER_SECTOR && j < PER_SECTOR
    ensures InodeInSector(PutInode(s, i, x), j) == if j == i then x else InodeInSector(s, j)
  {
    hide Encode, Decode;
    var r := PutInode(s, i, x);
    DecodeEncode(x);
    if j == i {
      assert r[i * INODE_SIZE..(i + 1) * INODE_SIZE] == Encode(x);
    } else if j < i {
      assert (j + 1) * INODE_SIZE <= i * INODE_SIZE;
      assert r[j * INODE_SIZE..(j + 1) * INODE_SIZE] == s[j * INODE_SIZE..(j + 1) * INODE_SIZE];
    } else {
      assert (i + 1) * INODE_SIZE <= j * INODE_SIZE;
      assert r[j * INODE_SIZE..(j + 1) * INODE_SIZE] == s[j * INODE_SIZE..(j + 1) * INODE_SIZE];
    }
  }

  /** The table an image carries after a file was seeded. */
  lemma {:induction false} SeededTable(disk: Disk, slot: nat, path: Path, payload: seq<byte>)
    requires 1 <= slot < INODE_MAX && |payload| <= FILE_MAX
    ensures LoadTable(Seed(disk, slot, path, payload)) == LoadTable(disk)[slot := HostInode(path, |payload|)]
    ensures Seed(disk, slot, path, payload)[SUPER_LBA] == disk[SUPER_LBA]
  {
    hide InodeInSector, PutInode, HostInode, Region;
    var lba := TABLE_LBA + slot / PER_SECTOR;
    var x := HostInode(path, |payload|);
    var d1 := disk[lba := PutInode(disk[lba], slot % PER_SECTOR, x)];
    SlotBehind(slot);
    DataApart(d1, DataLba(slot), Region(payload));
    forall i | 0 <= i < INODE_MAX ensures InodeAt(d1, i) == if i == slot then x else InodeAt(disk, i) {
      if i / PER_SECTOR == slot / PER_SECTOR {
        PutInodeReads(disk[lba], slot % PER_SECTOR, x, i % PER_SECTOR);
      }
    }
    assert LoadTable(d1) == LoadTable(disk)[slot := x];
  }

  lemma {:induction false} RegionData(disk: Disk, slot: nat, payload: seq<byte>)
    requires slot < INODE_MAX && |payload| <= FILE_MAX
    ensures FileData(Overwrite(disk, DataLba(slot), Region(payload)), slot, |payload|) == Some(payload)
  {
    var d := Overwrite(disk, DataLba(slot), Region(payload));
    FitsOnDisk(d, slot, |payload|);
    var r := FileData(d, slot, |payload|).value;
    forall k | 0 <= k < |payload| ensures r[k] == payload[k] {
      assert k / SECTOR < SECTORS_PER_FILE;
      assert d[DataLba(slot) + k / SECTOR] == FileSector(payload, k / SECTOR);
      assert k / SECTOR * SECTOR + k % SECTOR == k;
    }
    assert r == payload;
  }

  lemma {:induction false} HostTableOk(t: Table, path: Path, x: Inode)
    requires TableOk(t) && WriteSlot(t, path) >= 0 && Matches(x, path) && x.size <= FILE_MAX && |path| < PATH_MAX
    ensures var s := WriteSlot(t, path);
            && s >= 1 && TableOk(t[s := x]) && OneDiffers(t, t[s := x], s) && (IsFile(t[s]) ==> Name(t[s]) == path)
  {
    hide Name;
    var s := WriteSlot(t, path);
    var u := t[s := x];
    FindIsFile(t, path);
    forall i, j | 0 <= i < j < INODE_MAX && IsFile(u[i]) && IsFile(u[j]) ensures Name(u[i]) != Name(u[j]) {
      if i == s && FindInode(t, path) < 0 { assert !Matches(t[j], path); }
      if j == s && FindInode(t, path) < 0 { assert !Matches(t[i], path); }
    }
  }

  lemma {:induction false} SeededData(disk: Disk, slot: nat, path: Path, payload: seq<byte>, other: nat, size: nat)
    requires 1 <= slot < INODE_MAX && |payload| <= FILE_MAX && 1 <= other && size <= FILE_MAX && other != slot
    ensures FileData(Seed(disk, slot, path, payload), other, size) == FileData(disk, other, size)
  {
    hide PutInode, HostInode, Region;
    var lba := TABLE_LBA + slot / PER_SECTOR;
    var d1 := disk[lba := PutInode(disk[lba], slot % PER_SECTOR, HostInode(path, |payload|))];
    FilesApart(d1, slot, Region(payload), other, size);
    if FileData(disk, other, size).Some? {
      assert FileData(d1, other, size).value == FileData(disk, other, size).value;
    }
  }

  /** What the host installs the kernel reads: the image mounts, the path holds the payload,
      and every other path holds what it held. */
  lemma {:induction false} InstallReadBack(disk: Disk, path: Path, payload: seq<byte>, was: Table)
    requires SuperValid(disk[SUPER_LBA]) && TableOk(LoadTable(disk)) && |path| < PATH_MAX
    requires Install(disk, path, payload).Some?
    ensures var r := Init(Fs(false, was, Install(disk, path, payload).value));
            Inv(r) && Bound(Fs(true, LoadTable(disk), disk), r, path, payload)
  {
    hide SuperValid, FileData, Region, Name, WriteSlot, Lookup, LoadTable, TableOk, Init, Seed, FindInode, SameTable;
    var t := LoadTable(disk);
    var s := WriteSlot(t, path);
    var x := HostInode(path, |payload|);
    var d := Install(disk, path, payload).value;
    HostName(path, |payload|);
    HostTableOk(t, path, x);
    SeededTable(disk, s, path, payload);
    var u := t[s := x];
    SameTableRefl(u);
    MountAs(u, was, d);
    forall p: Path ensures Lookup(u, d, p) == if p == path then Some(payload) else Lookup(t, disk, p) {
      SeededLookup(disk, s, path, payload, p);
    }
  }

  lemma {:induction false} HostName(path: Path, size: nat)
    requires size < TWO32 && |path| < PATH_MAX
    ensures Matches(HostInode(path, size), path)
  {
    StoredName(seq(PATH_MAX, _ => 0), path);
    assert path[..|path|] == path;
  }

  lemma {:induction false} SeededLookup(disk: Disk, s: nat, path: Path, payload: seq<byte>, p: Path)
    requires TableOk(LoadTable(disk)) && s == WriteSlot(LoadTable(disk), path) && |payload| <= FILE_MAX && |path| < PATH_MAX
    requires s < INODE_MAX
    ensures var u := LoadTable(disk)[s := HostInode(path, |payload|)];
            Lookup(u, Seed(disk, s, path, payload), p) == if p == path then Some(payload) else Lookup(LoadTable(disk), disk, p)
  {
    hide FileData, Name, WriteSlot, Seed, LoadTable;
    var t := LoadTable(disk);
    var x := HostInode(path, |payload|);
    HostName(path, |payload|);
    HostTableOk(t, path, x);
    var u := t[s := x];
    if p == path {
      FindUnique(u, s, path);
      SeededOwn(disk, s, path, payload);
    } else {
      SameFindBut(t, u, s, path, p);
      if FindInode(t, p) >= 0 {
        FindIsFile(t, p);
        SeededData(disk, s, path, payload, FindInode(t, p), t[FindInode(t, p)].size);
      }
    }
  }

  lemma {:induction false} SeededOwn(disk: Disk, s: nat, path: Path, payload: seq<byte>)
    requires s < INODE_MAX && |payload| <= FILE_MAX
    ensures FileData(Seed(disk, s, path, payload), s, |payload|) == Some(payload)
  {
    hide FileData, Region, PutInode;
    var lba := TABLE_LBA + s / PER_SECTOR;
    RegionData(disk[lba := PutInode(disk[lba], s % PER_SECTOR, HostInode(path, |payload|))], s, payload);
  }
}
