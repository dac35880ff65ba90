/**
 How GridFS lies on the disk, told by offsets and numbers, and when the host tool agrees to
 install a file.
 */
module GfsLaws {
  import opened Common
  import opened Gfs
  import opened GfsProofs
  import opened GfsHost

  function Octet(b: seq<byte>, i: nat): nat
    requires i < |b|
  {
    b[i]
  }

  /** Numbers on disk have their lowest byte first. */
  lemma {:induction false} LittleEndian(b: seq<byte>, i: nat)
    requires i + 4 <= |b|
    ensures Le(b, i, 4) == Octet(b, i) + 0x100 * Octet(b, i + 1) + 0x1_0000 * Octet(b, i + 2) + 0x100_0000 * Octet(b, i + 3)
  {
    var d, c, e := Le(b, i + 3, 1), Le(b, i + 2, 2), Le(b, i + 1, 3);
    assert d == b[i + 3] + 256 * Le(b, i + 4, 0) && c == b[i + 2] + 256 * d && e == b[i + 1] + 256 * c;
  }

  /** An inode on disk: magic, size, path. */
  lemma {:induction false} InodeFields(x: Inode)
    ensures var b := Encode(x); |b| == 64 && Le(b, 0, 4) == x.valid && Le(b, 4, 4) == x.size && b[8..] == x.path
    ensures IsFile(x) <==> x.valid == 0x4649_4C45
  {
    hide Le, LeBytes;
    var b := Encode(x);
    assert Pow256(4) == TWO32;
    assert b[0..4] == LeBytes(x.valid, 4) && b[4..8] == LeBytes(x.size, 4) && b[8..] == x.path;
    LeOfBytes(b, 0, x.valid, 4);
    LeOfBytes(b, 4, x.size, 4);
  }

  /** Where things lie: inode i in the table, and its data. */
  lemma {:induction false} DiskLayout(disk: Disk, i: nat)
    requires i < 1280
    ensures var at := 64 * i; InodeAt(disk, i) == Decode(disk[65 + at / 512][at % 512..at % 512 + 64])
    ensures DataLba(i) == 128 + 128 * i
  {
    var s := disk[65 + i / 8];
    assert 64 * i / 512 == i / 8 && 64 * i % 512 == 64 * (i % 8);
    assert s[(i % 8) * 64..(i % 8 + 1) * 64] == s[64 * (i % 8)..64 * (i % 8) + 64];
  }

  /** The superblock: name, version, number of inodes, first data sector, sectors a file. */
  lemma {:induction false} SuperLayout()
    ensures var s := SuperSector();
            && s[..8] == ['G' as int, 'F' as int, 'S' as int, '2' as int, 'F' as int, 'L' as int, 'Y' as int, 'N' as int]
            && Le(s, 8, 4) == 3 && Le(s, 12, 4) == 1280 && Le(s, 16, 4) == 128 && Le(s, 20, 4) == 128
            && Le(s, 24, 4) == Crc32.Checksum(s[..24])
  {
    hide Le, LeBytes, Crc32.Checksum;
    var f, s := SuperFields(), SuperSector();
    SuperSealed();
    assert Pow256(4) == TWO32;
    assert s[..24] == f;
    assert f[8..12] == LeBytes(3, 4) && f[12..16] == LeBytes(1280, 4) && f[16..20] == LeBytes(128, 4) && f[20..24] == LeBytes(128, 4);
    assert s[8..12] == f[8..12] && s[12..16] == f[12..16] && s[16..20] == f[16..20] && s[20..24] == f[20..24];
    assert s[..8] == f[..8] == MAGIC;
    LeOfBytes(s, 8, 3, 4);
    LeOfBytes(s, 12, 1280, 4);
    LeOfBytes(s, 16, 128, 4);
    LeOfBytes(s, 20, 128, 4);
  }

  /** A read gives the file's bytes exactly when there is one and the buffer holds them. */
  lemma {:induction false} ReadIff(fs: Fs, path: Path, cap: nat)
    requires Inv(fs)
    ensures var held := Lookup(fs.inodes, fs.disk, path);
            Read(fs, path, cap) == if held.Some? && |held.value| <= cap then held else None
  {
    hide Inv;
    var i := FindInode(fs.inodes, path);
    if i >= 0 {
      assert Inv(fs);
      SizeFits(fs, path);
    }
  }

  lemma {:induction false} SizeFits(fs: Fs, path: Path)
    requires Inv(fs) && FindInode(fs.inodes, path) >= 0
    ensures FileData(fs.disk, FindInode(fs.inodes, path), fs.inodes[FindInode(fs.inodes, path)].size).Some?
  {
    var i := FindInode(fs.inodes, path);
    FitsOnDisk(fs.disk, i, fs.inodes[i].size);
  }

  /** A path is found exactly when some inode holds a file of that name. */
  lemma {:induction false} FoundExactly(t: Table, path: Path)
    ensures FindInode(t, path) >= 0 <==> exists i :: 0 <= i < INODE_MAX && IsFile(t[i]) && Name(t[i]) == path
  {
    hide Name;
  }

  /** The host tool installs a file exactly when its path is absolute, its bytes fit a slot,
      and the path is there already or fewer than 1279 files are. */
  lemma {:induction false} InstallIff(disk: Disk, path: Path, payload: seq<byte>)
    requires TableOk(LoadTable(disk))
    ensures var t := LoadTable(disk);
            Install(disk, path, payload).Some?
            <==> path != [] && path[0] == '/' as int && |payload| <= 65536
                 && ((exists i :: 0 <= i < INODE_MAX && IsFile(t[i]) && Name(t[i]) == path) || |FileSlots(t)| < 1279)
  {
    hide Name, TableOk, LoadTable, Seed, FindInode, FindFree;
    var t := LoadTable(disk);
    FoundExactly(t, path);
    RoomIff(t);
  }

  /** And the kernel writes one exactly when its bytes fit and are not none, under the same
      condition on the table. */
  lemma {:induction false} WriteIff(fs: Fs, path: Path, data: seq<byte>)
    requires TableOk(fs.inodes)
    ensures Write(fs, path, data).Done?
            <==> 0 < |data| <= 65536
                 && ((exists i :: 0 <= i < INODE_MAX && IsFile(fs.inodes[i]) && Name(fs.inodes[i]) == path) || |FileSlots(fs.inodes)| < 1279)
  {
    hide Name, TableOk, WriteLog, WrittenTable, FindInode, FindFree;
    FoundExactly(fs.inodes, path);
    RoomIff(fs.inodes);
  }

  /** The file slots are the inodes that hold files. */
  lemma {:induction false} SlotsAre(t: Table, i: int)
    ensures i in FileSlots(t) <==> 0 <= i < 1280 && t[i].valid == 0x4649_4C45
  {
  }
}
