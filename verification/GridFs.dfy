/**
 GridFS as it runs: the global inode table and the disk are arrays updated in place, and a
 log records every sector write in order. Each operation is proved to be the one of `Gfs`,
 and to make exactly the writes listed there.
 */
module GridFs {
  import opened Common
  import opened Gfs
  import opened GfsProofs
  import Crc32

  class Kernel {
    const disk: array<Sector>
    const inodes: array<Inode>
    var mounted: bool
    ghost var log: seq<DiskWrite>

    ghost predicate Valid() { disk.Length >= DISK_SECTORS && inodes.Length == INODE_MAX }

    ghost function State(): Fs
      requires Valid()
      reads this, disk, inodes
    {
      Fs(mounted, inodes[..], disk[..])
    }

    constructor (sectors: nat)
      requires sectors >= DISK_SECTORS
      ensures Valid() && fresh(disk) && fresh(inodes) && !mounted && log == []
    {
      disk := new Sector[sectors](_ => ZeroSector());
      inodes := new Inode[INODE_MAX](_ => NoInode());
      mounted := false;
      log := [];
    }

    method WriteSector(lba: nat, data: Sector)
      requires Valid() && lba < disk.Length
      modifies this`log, disk
      ensures log == old(log) + [DiskWrite(lba, data)]
      ensures disk[..] == Apply(old(disk[..]), [DiskWrite(lba, data)])
      ensures disk[..] == old(disk[..])[lba := data]
    {
      disk[lba] := data;
      log := log + [DiskWrite(lba, data)];
      ghost var w := [DiskWrite(lba, data)];
      assert w[..|w| - 1] == [];
    }

    /** `path_equal` */
    method PathEqual(a: seq<byte>, b: Path) returns (eq: bool)
      ensures eq == (CString(a) == b)
    {
      var i := 0;
      while i < |a| && a[i] != 0 && i < |b| && a[i] == b[i]
        invariant i <= |a| && i <= |b| && (CString(a) == b <==> CString(a[i..]) == b[i..])
      {
        assert a[i..][1..] == a[i + 1..] && b[i..][1..] == b[i + 1..];
        StringStep(a[i..], b[i..]);
        i := i + 1;
      }
      eq := (i == |a| || a[i] == 0) && i == |b|;
      assert i < |b| ==> b[i..][0] == b[i];
      assert i < |a| ==> a[i..][0] == a[i];
    }

    /** `find_inode` */
    method FindPath(path: Path) returns (r: int)
      requires Valid()
      ensures r == FindInode(inodes[..], path)
    {
      r := 0;
      while r < INODE_MAX
        invariant 0 <= r <= INODE_MAX
        invariant FindFrom(inodes[..], r, path) == FindInode(inodes[..], path)
      {
        if inodes[r].valid == INODE_MAGIC {
          var eq := PathEqual(inodes[r].path, path);
          if eq { return; }
        }
        r := r + 1;
      }
      r := -1;
    }

    /** `find_free_inode` */
    method FindUnused() returns (r: int)
      requires Valid()
      ensures r == FindFree(inodes[..])
    {
      r := 1;
      while r < INODE_MAX
        invariant 1 <= r <= INODE_MAX
        invariant FreeFrom(inodes[..], r) == FindFree(inodes[..])
      {
        if inodes[r].valid != INODE_MAGIC { return; }
        r := r + 1;
      }
      r := -1;
    }

    /** `load_inodes` */
    method LoadInodes()
      requires Valid()
      modifies inodes
      ensures inodes[..] == LoadTable(disk[..])
    {
      hide InodeInSector;
      for s := 0 to TABLE_SECTORS
        invariant forall g :: 0 <= g < PER_SECTOR * s ==> inodes[g] == InodeAt(disk[..], g)
      {
        var sector := disk[TABLE_LBA + s];
        for i := 0 to PER_SECTOR
          invariant forall g :: 0 <= g < PER_SECTOR * s + i ==> inodes[g] == InodeAt(disk[..], g)
        {
          var g := s * PER_SECTOR + i;
          assert g / PER_SECTOR == s && g % PER_SECTOR == i;
          inodes[g] := InodeInSector(sector, i);
        }
      }
    }

    /** `store_inodes` */
    method StoreInodes()
      requires Valid()
      modifies this`log, disk
      ensures log == old(log) + WritesAt(TABLE_LBA, TableSectors(inodes[..]))
      ensures disk[..] == Apply(old(disk[..]), WritesAt(TABLE_LBA, TableSectors(inodes[..])))
    {
      hide Apply, TableSector;
      ghost var ts := TableSectors(inodes[..]);
      ghost var all := WritesAt(TABLE_LBA, ts);
      assert Apply(disk[..], all[..0]) == disk[..] by { NoWrites(disk[..]); assert all[..0] == []; }
      for s := 0 to TABLE_SECTORS
        invariant log == old(log) + all[..s]
        invariant disk[..] == Apply(old(disk[..]), all[..s])
      {
        var sector := BuildSector(s);
        WriteSector(TABLE_LBA + s, sector);
        assert all[..s + 1] == all[..s] + [all[s]];
        ApplyAppend(old(disk[..]), all[..s], [all[s]]);
      }
      assert all[..TABLE_SECTORS] == all;
    }

    method BuildSector(s: nat) returns (sector: Sector)
      requires Valid() && s < TABLE_SECTORS
      ensures sector == TableSector(inodes[..], s)
    {
      hide Encode;
      var bytes: seq<byte> := [];
      for i := 0 to PER_SECTOR
        invariant |bytes| == i * INODE_SIZE
        invariant forall b :: 0 <= b < |bytes| ==> bytes[b] == Encode(inodes[PER_SECTOR * s + b / INODE_SIZE])[b % INODE_SIZE]
      {
        bytes := bytes + Encode(inodes[s * PER_SECTOR + i]);
      }
      sector := bytes;
    }

    /** The loops that empty the table in memory. */
    method ClearInodes()
      requires Valid()
      modifies inodes
      ensures inodes[..] == ClearedTable(old(inodes[..]))
    {
      for i := 0 to INODE_MAX
        invariant forall k :: 0 <= k < INODE_MAX ==> inodes[k] == if k < i then Cleared(old(inodes[k])) else old(inodes[k])
      {
        inodes[i] := Inode(0, 0, [0] + inodes[i].path[1..]);
      }
    }

    /** The zeroing pass of `gfs_format`. */
    method ZeroRegions()
      requires Valid()
      modifies this`log, disk
      ensures log == old(log) + WritesAt(DATA_LBA, ZeroSectors(INODE_MAX * SECTORS_PER_FILE))
      ensures disk[..] == Apply(old(disk[..]), WritesAt(DATA_LBA, ZeroSectors(INODE_MAX * SECTORS_PER_FILE)))
    {
      hide Apply, ZeroSector;
      ghost var all := WritesAt(DATA_LBA, ZeroSectors(INODE_MAX * SECTORS_PER_FILE));
      assert all[..0] == [];
      NoWrites(disk[..]);
      for slot := 0 to INODE_MAX
        invariant log == old(log) + all[..slot * SECTORS_PER_FILE]
        invariant disk[..] == Apply(old(disk[..]), all[..slot * SECTORS_PER_FILE])
      {
        var base := DATA_LBA + slot * SECTORS_PER_FILE;
        for s := 0 to SECTORS_PER_FILE
          invariant log == old(log) + all[..slot * SECTORS_PER_FILE + s]
          invariant disk[..] == Apply(old(disk[..]), all[..slot * SECTORS_PER_FILE + s])
        {
          ghost var n := slot * SECTORS_PER_FILE + s;
          WriteSector(base + s, ZeroSector());
          assert all[..n + 1] == all[..n] + [all[n]];
          ApplyAppend(old(disk[..]), all[..n], [all[n]]);
        }
      }
      assert all[..INODE_MAX * SECTORS_PER_FILE] == all;
    }

    /** `gfs_format` */
    method FormatDisk()
      requires Valid()
      modifies this`mounted, this`log, disk, inodes
      ensures State() == Format(old(State())) && log == old(log) + FormatLog(old(inodes[..]))
    {
      hide Apply, ClearedTable, TableSectors, SuperSector, ZeroSectors;
      ghost var d := disk[..];
      ghost var a, b := WritesAt(SUPER_LBA, [SuperSector()]), WritesAt(TABLE_LBA, TableSectors(ClearedTable(old(inodes[..]))));
      ghost var c := WritesAt(DATA_LBA, ZeroSectors(INODE_MAX * SECTORS_PER_FILE));
      WriteSector(SUPER_LBA, SuperSector());
      assert a == [DiskWrite(SUPER_LBA, SuperSector())];
      ClearInodes();
      StoreInodes();
      ZeroRegions();
      ApplyAppend(d, a, b);
      ApplyAppend(d, a + b, c);
      mounted := true;
    }

    /** `gfs_init` */
    method Initialise()
      requires Valid()
      modifies this`mounted, this`log, disk, inodes
      ensures State() == Init(old(State()))
      ensures log == old(log) + InitLog(old(State()))
    {
      hide Apply, TableSectors, SuperSector, SuperValid, LoadTable, ClearedTable;
      mounted := false;
      ghost var t := inodes[..];
      ClearInodes();
      ClearedTwice(t);
      if !SuperValid(disk[SUPER_LBA]) {
        FormatDisk();
        return;
      }
      LoadInodes();
      mounted := true;
    }

    method MountIfNeeded()
      requires Valid()
      modifies this`mounted, this`log, disk, inodes
      ensures State() == TryMount(old(State())) && mounted
      ensures log == old(log) + MountLog(old(State()))
    {
      hide Init, InitLog;
      if !mounted { Initialise(); }
      InitMounts(old(State()));
    }

    /** `gfs_read_file` */
    method ReadFile(path: Path, cap: nat) returns (r: Option<seq<byte>>)
      requires Valid()
      modifies this`mounted, this`log, disk, inodes
      ensures State() == TryMount(old(State())) && r == Read(State(), path, cap)
      ensures log == old(log) + MountLog(old(State()))
    {
      hide TryMount, FindInode, MountLog;
      MountIfNeeded();
      var slot := FindPath(path);
      if slot < 0 { return None; }
      if inodes[slot].size > cap { return None; }
      r := ReadData(slot, inodes[slot].size);
    }

    /** The data loop of `gfs_read_file`: a file that runs off the disk is not read. */
    method ReadData(slot: nat, size: nat) returns (r: Option<seq<byte>>)
      requires Valid() && slot < INODE_MAX
      ensures r == FileData(disk[..], slot, size)
    {
      var lba, out := DataLba(slot), [];
      while |out| < size
        invariant |out| <= size && lba <= disk.Length && (|out| < size ==> |out| % SECTOR == 0)
        invariant lba == DataLba(slot) + SectorCount(|out|)
        invariant forall k :: 0 <= k < |out| ==> out[k] == disk[DataLba(slot) + k / SECTOR][k % SECTOR]
      {
        if lba >= disk.Length {
          assert SectorCount(|out|) < SectorCount(size);
          return None;
        }
        var sector := disk[lba];
        var chunk := Min(SECTOR, size - |out|);
        ghost var before := out;
        out := out + sector[..chunk];
        lba := lba + 1;
        forall k | |before| <= k < |out| ensures out[k] == disk[DataLba(slot) + k / SECTOR][k % SECTOR] {
          assert k / SECTOR == |before| / SECTOR && k % SECTOR == k - |before|;
        }
      }
      assert FileData(disk[..], slot, size).value == out;
      r := Some(out);
    }

    /** The data loop of `gfs_write_file`. */
    method WriteData(slot: nat, data: seq<byte>)
      requires Valid() && slot < INODE_MAX && |data| <= FILE_MAX
      modifies this`log, disk
      ensures log == old(log) + WritesAt(DataLba(slot), FileSectors(data))
      ensures disk[..] == Apply(old(disk[..]), WritesAt(DataLba(slot), FileSectors(data)))
    {
      hide Apply;
      ghost var all := WritesAt(DataLba(slot), FileSectors(data));
      assert all[..0] == [];
      NoWrites(disk[..]);
      var lba, written := DataLba(slot), 0;
      ghost var k := 0;
      assert slot * SECTORS_PER_FILE <= (INODE_MAX - 1) * SECTORS_PER_FILE;
      while written < |data|
        invariant k <= |all| && lba == DataLba(slot) + k && written == Min(k * SECTOR, |data|)
        invariant (written < |data|) == (k < |all|)
        invariant log == old(log) + all[..k]
        invariant disk[..] == Apply(old(disk[..]), all[..k])
      {
        var sector: Sector := FileSector(data[written..], 0);
        assert sector == FileSector(data, k);
        WriteSector(lba, sector);
        assert all[..k + 1] == all[..k] + [all[k]];
        ApplyAppend(old(disk[..]), all[..k], [all[k]]);
        written := written + Min(SECTOR, |data| - written);
        lba := lba + 1;
        k := k + 1;
      }
      assert all[..k] == all;
    }

    /** The inode part of `gfs_write_file`. */
    method ClaimInode(path: Path, size: nat) returns (slot: int)
      requires Valid() && size <= FILE_MAX
      modifies inodes
      ensures slot == WriteSlot(old(inodes[..]), path)
      ensures inodes[..] == if slot < 0 then old(inodes[..]) else WrittenTable(old(inodes[..]), path, size)
    {
      hide FindInode, FindFree, PathBytes;
      slot := FindPath(path);
      if slot < 0 {
        slot := FindUnused();
        if slot < 0 { return; }
        inodes[slot] := Inode(INODE_MAGIC, size, PathBytes(inodes[slot].path, path));
      } else {
        inodes[slot] := inodes[slot].(size := size);
      }
    }

    /** `gfs_write_file` */
    method WriteFile(path: Path, data: seq<byte>) returns (ok: bool)
      requires Valid()
      modifies this`mounted, this`log, disk, inodes
      ensures match Write(TryMount(old(State())), path, data)
              case Refused => !ok && State() == TryMount(old(State())) && log == old(log) + MountLog(old(State()))
              case Done(fs, writes) => ok && State() == fs && log == old(log) + MountLog(old(State())) + writes
    {
      hide TryMount, MountLog, Apply, WriteSlot, WrittenTable, FileSectors, TableSectors;
      MountIfNeeded();
      if |data| == 0 || |data| > FILE_MAX { return false; }
      ghost var fs := State();
      var slot := ClaimInode(path, |data|);
      if slot < 0 { return false; }
      WriteData(slot, data);
      StoreInodes();
      ApplyAppend(fs.disk, WritesAt(DataLba(slot), FileSectors(data)), WritesAt(TABLE_LBA, TableSectors(inodes[..])));
      ok := true;
    }

    /** `gfs_delete_file` */
    method DeleteFile(path: Path) returns (ok: bool)
      requires Valid()
      modifies this`mounted, this`log, disk, inodes
      ensures match Delete(TryMount(old(State())), path)
              case Refused => !ok && State() == TryMount(old(State())) && log == old(log) + MountLog(old(State()))
              case Done(fs, writes) => ok && State() == fs && log == old(log) + MountLog(old(State())) + writes
    {
      hide TryMount, MountLog, Apply, FindInode, TableSectors;
      MountIfNeeded();
      ghost var fs := State();
      var slot := FindPath(path);
      if slot < 0 { return false; }
      inodes[slot] := Inode(0, 0, [0] + inodes[slot].path[1..]);
      assert inodes[..] == DeletedTable(fs.inodes, path);
      StoreInodes();
      ok := true;
    }
  }

  lemma {:induction false} StringStep(a: seq<byte>, b: Path)
    requires a != [] && a[0] != 0 && b != [] && a[0] == b[0]
    ensures CString(a) == b <==> CString(a[1..]) == b[1..]
  {
    assert b == [b[0]] + b[1..];
    assert CString(a)[1..] == CString(a[1..]);
  }

  lemma {:induction false} NoWrites(disk: Disk)
    ensures Apply(disk, []) == disk
  {
  }

  lemma {:induction false} ClearedTwice(t: Table)
    ensures ClearedTable(ClearedTable(t)) == ClearedTable(t)
  {
  }

  lemma {:induction false} InitMounts(fs: Fs)
    ensures TryMount(fs).mounted
  {
  }
}
