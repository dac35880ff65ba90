/**
 GridFS: an inode table and a fixed data region for each inode on a disk of 512-byte
 sectors. The table (sectors 65..224) overlaps the data region of inode 0 (128..255).
 Every operation is the list of sector writes it makes, in order.
 */
module Gfs {
  import opened Common
  import Crc32

  const SECTOR: nat := 512
  const SUPER_LBA: nat := 64
  const TABLE_LBA: nat := 65
  const TABLE_SECTORS: nat := 160
  const INODE_MAX: nat := 1280
  const INODE_SIZE: nat := 64
  const PER_SECTOR: nat := 8
  const SECTORS_PER_FILE: nat := 128
  const DATA_LBA: nat := 128
  const FILE_MAX: nat := 65536
  const PATH_MAX: nat := 56
  const INODE_MAGIC: nat := 0x4649_4C45
  const GFS_VERSION: nat := 3
  const DISK_SECTORS: nat := 163968  // DATA_LBA + INODE_MAX * SECTORS_PER_FILE
  const MAGIC: seq<byte> := [0x47, 0x46, 0x53, 0x32, 0x46, 0x4C, 0x59, 0x4E]  // "GFS2FLYN"

  type Sector = s: seq<byte> | |s| == SECTOR witness seq(SECTOR, _ => 0)

  function ZeroSector(): Sector { seq(SECTOR, _ => 0) }

  function ZeroSectors(n: nat): (s: seq<Sector>)
    ensures |s| == n
  {
    seq(n, _ => ZeroSector())
  }

  function NoInode(): Inode { Inode(0, 0, seq(PATH_MAX, _ => 0)) }

  /** A path as C passes it: bytes up to the terminator. */
  type Path = s: seq<byte> | forall i :: 0 <= i < |s| ==> s[i] != 0

  datatype RawInode = Inode(valid: nat, size: nat, path: seq<byte>)

  type Inode = r: RawInode | r.valid < TWO32 && r.size < TWO32 && |r.path| == PATH_MAX
    witness Inode(0, 0, seq(PATH_MAX, _ => 0))

  type Table = s: seq<Inode> | |s| == INODE_MAX witness seq(INODE_MAX, _ => NoInode())

  type Disk = s: seq<Sector> | |s| >= DISK_SECTORS witness ZeroSectors(DISK_SECTORS)

  // ---- inodes on disk ----

  function Encode(x: Inode): (b: seq<byte>)
    ensures |b| == INODE_SIZE
  {
    LeBytes(x.valid, 4) + LeBytes(x.size, 4) + x.path
  }

  lemma {:induction false} LeBound(b: seq<byte>, off: nat)
    requires off + 4 <= |b|
    ensures Le(b, off, 4) < TWO32
  {
    BytesOfLe(b, off, 4);
    assert Pow256(4) == TWO32;
  }

  function Decode(b: seq<byte>): (x: Inode)
    requires |b| == INODE_SIZE
  {
    LeBound(b, 0);
    LeBound(b, 4);
    Inode(Le(b, 0, 4), Le(b, 4, 4), b[8..])
  }

  lemma {:induction false} DecodeEncode(x: Inode)
    ensures Decode(Encode(x)) == x
  {
    hide Le, LeBytes;
    var b := Encode(x);
    assert Pow256(4) == TWO32;
    assert b[0..4] == LeBytes(x.valid, 4) && b[4..8] == LeBytes(x.size, 4) && b[8..] == x.path;
    LeOfBytes(b, 0, x.valid, 4);
    LeOfBytes(b, 4, x.size, 4);
  }

  /** Sector k of a stored table. */
  function TableSector(t: Table, k: nat): (s: Sector)
    requires k < TABLE_SECTORS
  {
    seq(SECTOR, b requires 0 <= b < SECTOR => Encode(t[PER_SECTOR * k + b / INODE_SIZE])[b % INODE_SIZE])
  }

  function TableSectors(t: Table): (s: seq<Sector>)
    ensures |s| == TABLE_SECTORS
  {
    seq(TABLE_SECTORS, k requires 0 <= k < TABLE_SECTORS => TableSector(t, k))
  }

  function InodeInSector(s: Sector, i: nat): Inode
    requires i < PER_SECTOR
  {
    Decode(s[i * INODE_SIZE..(i + 1) * INODE_SIZE])
  }

  function InodeAt(disk: Disk, i: nat): Inode
    requires i < INODE_MAX
  {
    InodeInSector(disk[TABLE_LBA + i / PER_SECTOR], i % PER_SECTOR)
  }

  /** `load_inodes` */
  function LoadTable(disk: Disk): (t: Table) {
    seq(INODE_MAX, i requires 0 <= i < INODE_MAX => InodeAt(disk, i))
  }

  // ---- names ----

  /** A C string held in a buffer. */
  function CString(b: seq<byte>): (s: Path)
    ensures |s| <= |b| && b[..|s|] == s && (|s| < |b| ==> b[|s|] == 0)
  {
    if b == [] || b[0] == 0 then [] else [b[0]] + CString(b[1..])
  }

  function Name(x: Inode): Path { CString(x.path) }

  predicate IsFile(x: Inode) { x.valid == INODE_MAGIC }

  /** `copy_string` into the path of an inode: at most 55 bytes and a terminator; what stood
      behind it stays. */
  function PathBytes(was: seq<byte>, path: Path): (b: seq<byte>)
    requires |was| == PATH_MAX
    ensures |b| == PATH_MAX
  {
    var n := Min(|path|, PATH_MAX - 1);
    path[..n] + [0] + was[n + 1..]
  }

  predicate Matches(x: Inode, path: Path) { IsFile(x) && Name(x) == path }

  /** `find_inode`, from inode i on. */
  function FindFrom(t: seq<Inode>, i: nat, path: Path): (r: int)
    ensures r == -1 || i <= r < |t|
    ensures r >= 0 ==> Matches(t[r], path) && forall j :: i <= j < r ==> !Matches(t[j], path)
    ensures r < 0 ==> forall j :: i <= j < |t| ==> !Matches(t[j], path)
    decreases |t| - i
  {
    if i >= |t| then -1 else if Matches(t[i], path) then i else FindFrom(t, i + 1, path)
  }

  function FindInode(t: Table, path: Path): (r: int)
    ensures -1 <= r < INODE_MAX
    ensures r >= 0 ==> Matches(t[r], path) && forall j :: 0 <= j < r ==> !Matches(t[j], path)
    ensures r < 0 ==> forall j :: 0 <= j < INODE_MAX ==> !Matches(t[j], path)
  {
    FindFrom(t, 0, path)
  }

  function FreeFrom(t: seq<Inode>, i: nat): (r: int)
    ensures r == -1 || i <= r < |t|
    ensures r >= 0 ==> !IsFile(t[r])
    ensures forall j :: i <= j < (if r < 0 then |t| else r) ==> IsFile(t[j])
    decreases |t| - i
  {
    if i >= |t| then -1 else if !IsFile(t[i]) then i else FreeFrom(t, i + 1)
  }

  /** `find_free_inode`: inode 0 is never handed out. */
  function FindFree(t: Table): (r: int)
    ensures r == -1 || 1 <= r < INODE_MAX
    ensures r >= 0 ==> !IsFile(t[r])
    ensures r < 0 ==> forall j :: 1 <= j < INODE_MAX ==> IsFile(t[j])
  {
    FreeFrom(t, 1)
  }

  // ---- sector writes ----

  datatype DiskWrite = DiskWrite(lba: nat, data: Sector)

  /** The disk after a list of writes; a write behind the end is lost. */
  function Apply(disk: Disk, log: seq<DiskWrite>): (r: Disk)
    ensures |r| == |disk|
  {
    if log == [] then disk
    else
      var w := log[|log| - 1];
      var d := Apply(disk, log[..|log| - 1]);
      if w.lba < |d| then d[w.lba := w.data] else d
  }

  /** Writes of successive sectors. */
  function WritesAt(lba: nat, sectors: seq<Sector>): (log: seq<DiskWrite>)
    ensures |log| == |sectors|
  {
    seq(|sectors|, k requires 0 <= k < |sectors| => DiskWrite(lba + k, sectors[k]))
  }

  /** What they amount to. */
  function Overwrite(disk: Disk, lba: nat, sectors: seq<Sector>): (r: Disk)
    ensures |r| == |disk|
    ensures forall l :: 0 <= l < |disk| ==> r[l] == if lba <= l < lba + |sectors| then sectors[l - lba] else disk[l]
  {
    seq(|disk|, l requires 0 <= l < |disk| => if lba <= l < lba + |sectors| then sectors[l - lba] else disk[l])
  }

  // ---- the superblock ----

  /** `build_superblock` without its checksum. */
  function SuperFields(): (b: seq<byte>)
    ensures |b| == 24
  {
    MAGIC + LeBytes(GFS_VERSION, 4) + LeBytes(INODE_MAX, 4) + LeBytes(DATA_LBA, 4) + LeBytes(SECTORS_PER_FILE, 4)
  }

  function SealedSector(fields: seq<byte>): (s: Sector)
    requires |fields| == 24
  {
    fields + LeBytes(Crc32.Checksum(fields), 4) + seq(SECTOR - 28, _ => 0)
  }

  function SuperSector(): (s: Sector) { SealedSector(SuperFields()) }

  /** `super_valid`: magic, version, and the checksum of the first 24 bytes. */
  predicate SuperValid(s: Sector) {
    s[..8] == MAGIC && Le(s, 8, 4) == GFS_VERSION && Le(s, 24, 4) == Crc32.Checksum(s[..24])
  }

  // ---- the file system ----

  datatype Fs = Fs(mounted: bool, inodes: Table, disk: Disk)

  function DataLba(slot: nat): nat { DATA_LBA + slot * SECTORS_PER_FILE }

  function SectorCount(size: nat): nat { (size + SECTOR - 1) / SECTOR }

  /** Sector k of a file's data, padded with zeros. */
  function FileSector(data: seq<byte>, k: nat): (s: Sector) {
    seq(SECTOR, i requires 0 <= i < SECTOR => if k * SECTOR + i < |data| then data[k * SECTOR + i] else 0)
  }

  function FileSectors(data: seq<byte>): (s: seq<Sector>)
    ensures |s| == SectorCount(|data|)
  {
    seq(SectorCount(|data|), k requires 0 <= k => FileSector(data, k))
  }

  /** The bytes of a file; none when its sectors run off the disk. */
  function FileData(disk: Disk, slot: nat, size: nat): (r: Option<seq<byte>>) {
    if DataLba(slot) + SectorCount(size) > |disk| then None
    else Some(seq(size, k requires 0 <= k < size => disk[DataLba(slot) + k / SECTOR][k % SECTOR]))
  }

  /** What `gfs_read_file` finds for a path when the buffer is large enough. */
  function Lookup(t: Table, disk: Disk, path: Path): (r: Option<seq<byte>>) {
    var i := FindInode(t, path);
    if i < 0 then None else FileData(disk, i, t[i].size)
  }

  /** An inode emptied as `gfs_format`, `gfs_init` and `gfs_delete_file` do it. */
  function Cleared(x: Inode): (y: Inode) { Inode(0, 0, [0] + x.path[1..]) }

  function ClearedTable(t: Table): (r: Table) { seq(INODE_MAX, i requires 0 <= i < INODE_MAX => Cleared(t[i])) }

  /** The writes of `gfs_format`: superblock, table, and zeros over every data region, the
      overlapping one of inode 0 included. */
  function FormatLog(t: Table): seq<DiskWrite> {
    WritesAt(SUPER_LBA, [SuperSector()]) + WritesAt(TABLE_LBA, TableSectors(ClearedTable(t)))
    + WritesAt(DATA_LBA, ZeroSectors(INODE_MAX * SECTORS_PER_FILE))
  }

  function Format(fs: Fs): (r: Fs) {
    Fs(true, ClearedTable(fs.inodes), Apply(fs.disk, FormatLog(fs.inodes)))
  }

  /** `gfs_init`: a disk without a valid superblock is formatted. */
  function Init(fs: Fs): (r: Fs) {
    if SuperValid(fs.disk[SUPER_LBA]) then Fs(true, LoadTable(fs.disk), fs.disk) else Format(fs)
  }

  function TryMount(fs: Fs): (r: Fs) { if fs.mounted then fs else Init(fs) }

  /** The sector writes of `gfs_init`: none on a disk with a valid superblock. */
  function InitLog(fs: Fs): seq<DiskWrite> {
    if SuperValid(fs.disk[SUPER_LBA]) then [] else FormatLog(fs.inodes)
  }

  function MountLog(fs: Fs): seq<DiskWrite> { if fs.mounted then [] else InitLog(fs) }

  /** `gfs_read_file` into a buffer of `cap` bytes. */
  function Read(fs: Fs, path: Path, cap: nat): (r: Option<seq<byte>>) {
    var i := FindInode(fs.inodes, path);
    if i < 0 || fs.inodes[i].size > cap then None else FileData(fs.disk, i, fs.inodes[i].size)
  }

  datatype Written = Refused | Done(fs: Fs, log: seq<DiskWrite>)

  /** The inode a write uses: that of the path, or a free one. */
  function WriteSlot(t: Table, path: Path): (r: int)
    ensures -1 <= r < INODE_MAX
  {
    var i := FindInode(t, path);
    if i >= 0 then i else FindFree(t)
  }

  function WrittenTable(t: Table, path: Path, size: nat): (r: Table)
    requires WriteSlot(t, path) >= 0 && size < TWO32
  {
    var i := WriteSlot(t, path);
    if FindInode(t, path) >= 0 then t[i := Inode(t[i].valid, size, t[i].path)]
    else t[i := Inode(INODE_MAGIC, size, PathBytes(t[i].path, path))]
  }

  /** The writes of `gfs_write_file`: the data, then the whole table. */
  function WriteLog(t: Table, path: Path, data: seq<byte>): seq<DiskWrite>
    requires WriteSlot(t, path) >= 0 && |data| <= FILE_MAX
  {
    WritesAt(DataLba(WriteSlot(t, path)), FileSectors(data))
    + WritesAt(TABLE_LBA, TableSectors(WrittenTable(t, path, |data|)))
  }

  /** `gfs_write_file` on a mounted file system. */
  function Write(fs: Fs, path: Path, data: seq<byte>): (r: Written) {
    if |data| == 0 || |data| > FILE_MAX || WriteSlot(fs.inodes, path) < 0 then Refused
    else
      var log := WriteLog(fs.inodes, path, data);
      Done(Fs(true, WrittenTable(fs.inodes, path, |data|), Apply(fs.disk, log)), log)
  }

  function DeletedTable(t: Table, path: Path): (r: Table)
    requires FindInode(t, path) >= 0
  {
    t[FindInode(t, path) := Cleared(t[FindInode(t, path)])]
  }

  /** `gfs_delete_file` on a mounted file system. */
  function Delete(fs: Fs, path: Path): (r: Written) {
    if FindInode(fs.inodes, path) < 0 then Refused
    else
      var log := WritesAt(TABLE_LBA, TableSectors(DeletedTable(fs.inodes, path)));
      Done(Fs(true, DeletedTable(fs.inodes, path), Apply(fs.disk, log)), log)
  }

  /** Switching off and mounting what is on the disk. */
  function Remount(fs: Fs): (r: Fs) { Init(Fs(false, fs.inodes, fs.disk)) }
}
