/**
 The vault: a sealed record kept in memory and on disk sectors 32..34. Its checksum
 covers all but the last four bytes, with its own field taken as zero.
 */
module Vault {
  import opened Common
  import opened Crc32

  const VAULT_SIZE: nat := 1028
  const SECTOR: nat := 512
  const SIGNATURE_LBA: nat := 31
  const VAULT_LBA: nat := 32
  const VAULT_SECTORS: nat := 3
  const VAULT_SECTORS_V5: nat := 2
  const VAULT_MAGIC: nat := 0x4752_4431
  const VAULT_VERSION: nat := 6
  const VAULT_VERSION_V5: nat := 5
  const SIGNATURE: seq<byte> := [0x46, 0x4C, 0x59, 0x4E, 0x47, 0x52, 0x49, 0x44]  // "FLYNGRID"

  type Record = s: seq<byte> | |s| == VAULT_SIZE witness seq(VAULT_SIZE, _ => 0)
  type Sector = s: seq<byte> | |s| == SECTOR witness seq(SECTOR, _ => 0)

  /** The record with the checksum field replaced; the field is bytes 8..11. */
  function WithSum(v: Record, sum: nat): (r: Record) { v[..8] + LeBytes(sum, 4) + v[12..] }

  /** `vault_checksum` of the record with its field zeroed. */
  function RecordSum(v: Record): nat { Checksum(WithSum(v, 0)[..VAULT_SIZE - 4]) }

  /** `vault_recompute_checksum` */
  function Seal(v: Record): (r: Record) { WithSum(v, RecordSum(v)) }

  /** `vault_valid_version` */
  predicate ValidVersion(v: Record, version: nat) {
    Le(v, 0, 4) == VAULT_MAGIC && Le(v, 4, 4) == version && Le(v, 8, 4) == RecordSum(v)
  }

  lemma {:induction false} SumFieldOnly(v: Record, w: Record)
    requires v[..8] == w[..8] && v[12..] == w[12..]
    ensures RecordSum(v) == RecordSum(w)
  {
    hide Checksum;
    assert WithSum(v, 0) == WithSum(w, 0);
  }

  /** Recomputing the checksum makes a record with the right magic and version valid, and
      changes nothing but the checksum field. */
  lemma {:induction false} SealValid(v: Record, version: nat)
    requires Le(v, 0, 4) == VAULT_MAGIC && Le(v, 4, 4) == version
    ensures ValidVersion(Seal(v), version)
    ensures Seal(v)[..8] == v[..8] && Seal(v)[12..] == v[12..]
  {
    hide Checksum, Le, LeBytes;
    var w := Seal(v);
    assert w[..8] == v[..8] && w[12..] == v[12..];
    SumFieldOnly(v, w);
    assert w[0..4] == w[..8][0..4] && v[0..4] == v[..8][0..4] && w[4..8] == w[..8][4..8] && v[4..8] == v[..8][4..8];
    LeSame(v, 0, w, 0, 4);
    LeSame(v, 4, w, 4, 4);
    assert w[8..12] == LeBytes(RecordSum(v), 4);
    ChecksumBound(WithSum(v, 0)[..VAULT_SIZE - 4]);
    LeOfBytes(w, 8, RecordSum(v), 4);
  }

  /** v and w agree outside the four bytes at i. */
  predicate DifferAt(v: Record, w: Record, i: nat)
    requires i + 4 <= VAULT_SIZE
  {
    v != w && v[..i] == w[..i] && v[i + 4..] == w[i + 4..]
  }

  lemma {:induction false} Parts(v: Record, i: nat)
    requires i + 4 <= VAULT_SIZE
    ensures v == v[..i] + v[i..i + 4] + v[i + 4..]
  {
  }

  lemma {:induction false} DifferInside(v: Record, w: Record, i: nat)
    requires i + 4 <= VAULT_SIZE && DifferAt(v, w, i)
    ensures v[i..i + 4] != w[i..i + 4]
  {
    Parts(v, i);
    Parts(w, i);
  }

  /** Equal numbers in a field are equal bytes. */
  lemma {:induction false} FieldEqual(v: Record, w: Record, off: nat)
    requires off + 4 <= VAULT_SIZE && Le(v, off, 4) == Le(w, off, 4)
    ensures v[off..off + 4] == w[off..off + 4]
  {
    BytesOfLe(v, off, 4);
    BytesOfLe(w, off, 4);
  }

  lemma {:induction false} HeaderEqual(v: Record, w: Record)
    requires Le(v, 0, 4) == Le(w, 0, 4) && Le(v, 4, 4) == Le(w, 4, 4)
    ensures v[..8] == w[..8]
  {
    hide Le;
    FieldEqual(v, w, 0);
    FieldEqual(v, w, 4);
    assert v[..8] == v[0..4] + v[4..8] && w[..8] == w[0..4] + w[4..8];
  }

  lemma {:induction false} TailEqual(v: Record, w: Record, i: nat, j: nat)
    requires i <= j <= VAULT_SIZE && v[i..] == w[i..]
    ensures v[j..] == w[j..]
  {
    assert v[j..] == v[i..][j - i..] && w[j..] == w[i..][j - i..];
  }

  lemma {:induction false} SumFieldEqual(v: Record, w: Record, i: nat)
    requires 12 <= i <= VAULT_SIZE && v[..i] == w[..i]
    ensures Le(v, 8, 4) == Le(w, 8, 4)
  {
    assert v[8..12] == v[..i][8..12] && w[8..12] == w[..i][8..12];
    LeSame(v, 8, w, 8, 4);
  }

  /** A valid record changed within four consecutive covered bytes is no longer valid,
      wherever the four bytes lie, unless they run out of the checksum field. */
  lemma {:induction false} ChangedRecordRejected(v: Record, w: Record, version: nat, i: nat)
    requires ValidVersion(v, version) && i + 4 <= VAULT_SIZE - 4 && DifferAt(v, w, i)
    requires i <= 8 || 12 <= i
    ensures !ValidVersion(w, version)
  {
    hide RecordSum, Le;
    if i >= 12 {
      DataBurst(v, w, i);
      SumFieldEqual(v, w, i);
    } else {
      TailEqual(v, w, i + 4, 12);
      Parts(v, 8);
      Parts(w, 8);
      if Le(v, 0, 4) == Le(w, 0, 4) && Le(v, 4, 4) == Le(w, 4, 4) {
        HeaderEqual(v, w);
        SumFieldOnly(v, w);
        if Le(v, 8, 4) == Le(w, 8, 4) { FieldEqual(v, w, 8); }
      }
    }
  }

  lemma {:induction false} DataBurst(v: Record, w: Record, i: nat)
    requires 12 <= i && i + 4 <= VAULT_SIZE - 4 && DifferAt(v, w, i)
    ensures RecordSum(v) != RecordSum(w)
  {
    hide Checksum, LeBytes;
    DifferInside(v, w, i);
    var a, b := WithSum(v, 0)[..VAULT_SIZE - 4], WithSum(w, 0)[..VAULT_SIZE - 4];
    var pre, post := a[..i], a[i + 4..];
    assert a == pre + v[i..i + 4] + post;
    assert forall k :: 0 <= k < i ==> v[k] == v[..i][k] && w[k] == w[..i][k];
    assert forall k :: i + 4 <= k < VAULT_SIZE ==> v[k] == v[i + 4..][k - i - 4] && w[k] == w[i + 4..][k - i - 4];
    var c := pre + w[i..i + 4] + post;
    forall k | 0 <= k < VAULT_SIZE - 4 ensures b[k] == c[k] {
      if k < i { assert c[k] == a[k]; } else if k >= i + 4 { assert c[k] == post[k - i - 4]; }
    }
    assert b == c;
    BurstDetected(pre, v[i..i + 4], w[i..i + 4], post);
  }

  /** The last four bytes of the record are not covered: whatever they are, validity is the
      same. */
  lemma {:induction false} LastBytesUncovered(v: Record, w: Record, version: nat)
    requires v[..VAULT_SIZE - 4] == w[..VAULT_SIZE - 4]
    ensures ValidVersion(v, version) == ValidVersion(w, version)
  {
    hide Checksum, Le, LeBytes;
    assert forall k :: 0 <= k < VAULT_SIZE - 4 ==> v[k] == v[..VAULT_SIZE - 4][k] && w[k] == w[..VAULT_SIZE - 4][k];
    assert WithSum(v, 0)[..VAULT_SIZE - 4] == WithSum(w, 0)[..VAULT_SIZE - 4];
    LeSame(v, 0, w, 0, 4);
    LeSame(v, 4, w, 4, 4);
    LeSame(v, 8, w, 8, 4);
  }

  // ---- disk ----

  /** What `load_vault_sectors` assembles from the first n vault sectors. */
  function Loaded(disk: seq<Sector>, n: nat): (r: Record)
    requires |disk| >= VAULT_LBA + VAULT_SECTORS && n <= VAULT_SECTORS
  {
    seq(VAULT_SIZE, i requires 0 <= i < VAULT_SIZE =>
      if i / SECTOR < n then disk[VAULT_LBA + i / SECTOR][i % SECTOR] else 0)
  }

  /** What `storage_write_vault_sectors` leaves in sector i of the vault. */
  function VaultSector(v: Record, i: nat): (r: Sector) {
    seq(SECTOR, b requires 0 <= b < SECTOR => if i * SECTOR + b < VAULT_SIZE then v[i * SECTOR + b] else 0)
  }

  /** `write_disk_signature` */
  function SignatureSector(): (r: Sector) { SIGNATURE + [VAULT_VERSION] + seq(SECTOR - 9, _ => 0) }

  /** The disk after `storage_write_vault_sectors`. */
  function Written(disk: seq<Sector>, v: Record): (r: seq<Sector>)
    requires |disk| >= VAULT_LBA + VAULT_SECTORS
    ensures |r| == |disk|
  {
    disk[SIGNATURE_LBA := SignatureSector()][VAULT_LBA := VaultSector(v, 0)][VAULT_LBA + 1 := VaultSector(v, 1)]
      [VAULT_LBA + 2 := VaultSector(v, 2)]
  }

  /** What `storage_load_disk` returns, and the vault and the disk it leaves. */
  datatype LoadResult = Load(ok: bool, vault: Record, disk: seq<Sector>)

  /** `storage_load_disk`: the signature's version decides how many sectors are read; an
      old vault is migrated and written back. */
  function LoadDisk(disk: seq<Sector>, vault: Record): (r: LoadResult)
    requires |disk| >= VAULT_LBA + VAULT_SECTORS
  {
    var sig := disk[SIGNATURE_LBA];
    if sig[..8] != SIGNATURE then Load(false, vault, disk)
    else if sig[8] == VAULT_VERSION then
      var v := Loaded(disk, VAULT_SECTORS);
      Load(ValidVersion(v, VAULT_VERSION), v, disk)
    else if sig[8] == VAULT_VERSION_V5 then
      var v := Loaded(disk, VAULT_SECTORS_V5);
      if !ValidVersion(v, VAULT_VERSION_V5) then Load(false, v, disk)
      else Load(true, Migrate(v), Written(disk, Migrate(v)))
    else Load(false, vault, disk)
  }

  /** A valid vault that is written is loaded again, from any disk and over any vault. */
  lemma {:induction false} SyncThenLoad(v: Record, disk: seq<Sector>, was: Record)
    requires |disk| >= VAULT_LBA + VAULT_SECTORS
    ensures LoadDisk(Written(disk, v), was) == Load(ValidVersion(v, VAULT_VERSION), v, Written(disk, v))
  {
    hide ValidVersion, VaultSector, Loaded;
    var d := Written(disk, v);
    assert d[SIGNATURE_LBA][..8] == SIGNATURE && d[SIGNATURE_LBA][8] == VAULT_VERSION;
    assert d[VAULT_LBA] == VaultSector(v, 0) && d[VAULT_LBA + 1] == VaultSector(v, 1) && d[VAULT_LBA + 2] == VaultSector(v, 2);
    WriteThenLoad(v, d, VAULT_VERSION);
  }

  /** A load that succeeds leaves a valid vault of the current version, and loading again
      changes nothing: an old vault is migrated once. */
  lemma {:induction false} LoadStable(disk: seq<Sector>, was: Record, later: Record)
    requires |disk| >= VAULT_LBA + VAULT_SECTORS && LoadDisk(disk, was).ok
    ensures var r := LoadDisk(disk, was);
            ValidVersion(r.vault, VAULT_VERSION) && LoadDisk(r.disk, later) == r
  {
    hide ValidVersion, Loaded, Written, Migrate, SignatureSector;
    var v := Loaded(disk, VAULT_SECTORS_V5);
    if disk[SIGNATURE_LBA][8] == VAULT_VERSION_V5 {
      MigratedValid(v);
      SyncThenLoad(Migrate(v), disk, later);
    }
  }

  /** A vault that is written is read back whole; read as an old two-sector vault it loses
      its last four bytes, the four its checksum does not cover, and stays as valid. */
  lemma {:induction false} WriteThenLoad(v: Record, disk: seq<Sector>, version: nat)
    requires |disk| >= VAULT_LBA + VAULT_SECTORS
    requires forall i :: 0 <= i < VAULT_SECTORS ==> disk[VAULT_LBA + i] == VaultSector(v, i)
    ensures Loaded(disk, VAULT_SECTORS) == v
    ensures Loaded(disk, VAULT_SECTORS_V5) == v[..VAULT_SIZE - 4] + [0, 0, 0, 0]
    ensures ValidVersion(Loaded(disk, VAULT_SECTORS_V5), version) == ValidVersion(v, version)
  {
    hide ValidVersion;
    forall i | 0 <= i < VAULT_SIZE
      ensures Loaded(disk, VAULT_SECTORS)[i] == v[i]
      ensures Loaded(disk, VAULT_SECTORS_V5)[i] == if i < VAULT_SIZE - 4 then v[i] else 0
    {
      assert i == i / SECTOR * SECTOR + i % SECTOR;
      assert disk[VAULT_LBA + i / SECTOR] == VaultSector(v, i / SECTOR);
    }
    var old5 := Loaded(disk, VAULT_SECTORS_V5);
    assert old5[..VAULT_SIZE - 4] == v[..VAULT_SIZE - 4];
    LastBytesUncovered(old5, v, version);
  }

  /** Migration of an old record: the version is raised and the record sealed again. */
  function Migrate(v: Record): (r: Record) { Seal(v[..4] + LeBytes(VAULT_VERSION, 4) + v[8..]) }

  lemma {:induction false} MigratedValid(v: Record)
    requires ValidVersion(v, VAULT_VERSION_V5)
    ensures ValidVersion(Migrate(v), VAULT_VERSION) && Migrate(v)[12..] == v[12..] && !ValidVersion(v, VAULT_VERSION)
  {
    hide Checksum, Le, LeBytes;
    var w := v[..4] + LeBytes(VAULT_VERSION, 4) + v[8..];
    assert w[4..8] == LeBytes(VAULT_VERSION, 4) && w[0..4] == v[0..4];
    assert Pow256(4) == 0x1_0000_0000;
    LeOfBytes(w, 4, VAULT_VERSION, 4);
    LeSame(v, 0, w, 0, 4);
    SealValid(w, VAULT_VERSION);
    assert w[12..] == v[12..];
  }

  /** The vault global of the storage code, and the disk it is kept on. */
  class Storage {
    const vault: array<byte>
    const disk: array<Sector>

    ghost predicate Valid() { vault.Length == VAULT_SIZE && disk.Length >= VAULT_LBA + VAULT_SECTORS }

    constructor (sectors: nat)
      requires sectors >= VAULT_LBA + VAULT_SECTORS
      ensures Valid() && fresh(vault) && fresh(disk) && disk.Length == sectors
    {
      vault := new byte[VAULT_SIZE](_ => 0);
      disk := new Sector[sectors](_ => seq(SECTOR, _ => 0));
    }

    /** `vault_recompute_checksum` */
    method RecomputeChecksum()
      requires Valid()
      modifies vault
      ensures vault[..] == Seal(old(vault[..]))
    {
      hide LeBytes;
      PutSum(0);
      var sum := ChecksumLoop(vault[..VAULT_SIZE - 4]);
      assert vault[..VAULT_SIZE - 4] == vault[..][..VAULT_SIZE - 4];
      PutSum(sum);
      assert WithSum(WithSum(old(vault[..]), 0), sum) == WithSum(old(vault[..]), sum);
    }

    method PutSum(sum: nat)
      requires Valid()
      modifies vault
      ensures vault[..] == WithSum(old(vault[..]), sum)
    {
      var field := LeBytes(sum, 4);
      for i := 0 to 4
        invariant forall k :: 0 <= k < VAULT_SIZE ==> vault[k] == if 8 <= k < 8 + i then field[k - 8] else old(vault[k])
      {
        vault[8 + i] := field[i];
      }
    }

    /** `vault_valid_version` on a copy whose field is zeroed. */
    method IsValid(version: nat) returns (ok: bool)
      requires Valid()
      ensures ok == ValidVersion(vault[..], version)
    {
      hide Checksum, LeBytes;
      var data := vault[..];
      if Le(data, 0, 4) != VAULT_MAGIC || Le(data, 4, 4) != version { return false; }
      var tmp := data[..8] + LeBytes(0, 4) + data[12..];
      var sum := ChecksumLoop(tmp[..VAULT_SIZE - 4]);
      ok := Le(data, 8, 4) == sum;
    }

    /** `load_vault_sectors` */
    method LoadSectors(sectors: nat)
      requires Valid() && sectors <= VAULT_SECTORS
      modifies vault
      ensures vault[..] == Loaded(disk[..], sectors)
    {
      for i := 0 to sectors
        invariant forall k :: 0 <= k < VAULT_SIZE && k < i * SECTOR ==> vault[k] == disk[VAULT_LBA + k / SECTOR][k % SECTOR]
      {
        var sector := disk[VAULT_LBA + i];
        for b := 0 to SECTOR
          invariant forall k :: 0 <= k < VAULT_SIZE && k < i * SECTOR + b ==>
                      vault[k] == disk[VAULT_LBA + k / SECTOR][k % SECTOR]
        {
          var offset := i * SECTOR + b;
          assert offset / SECTOR == i && offset % SECTOR == b;
          if offset < VAULT_SIZE { vault[offset] := sector[b]; }
        }
      }
      var loaded := sectors * SECTOR;
      if loaded < VAULT_SIZE {
        for b := loaded to VAULT_SIZE
          invariant forall k :: 0 <= k < loaded ==> vault[k] == disk[VAULT_LBA + k / SECTOR][k % SECTOR]
          invariant forall k :: loaded <= k < b ==> vault[k] == 0
        {
          vault[b] := 0;
        }
      }
    }

    /** `storage_write_vault_sectors`: the signature, then the vault. */
    method Write()
      requires Valid()
      modifies disk
      ensures disk[..] == Written(old(disk[..]), vault[..])
    {
      hide SignatureSector;
      WriteSignature();
      ghost var d := old(disk[..])[SIGNATURE_LBA := SignatureSector()];
      for i := 0 to VAULT_SECTORS
        invariant disk[..] == if i == 0 then d else if i == 1 then d[VAULT_LBA := VaultSector(vault[..], 0)]
                              else if i == 2 then d[VAULT_LBA := VaultSector(vault[..], 0)][VAULT_LBA + 1 := VaultSector(vault[..], 1)]
                              else Written(old(disk[..]), vault[..])
      {
        var sector := BuildSector(i);
        disk[VAULT_LBA + i] := sector;
      }
    }

    /** Sector i of the vault, zeros behind its end. */
    method BuildSector(i: nat) returns (r: Sector)
      requires Valid() && i < VAULT_SECTORS
      ensures r == VaultSector(vault[..], i)
    {
      var sector := new byte[SECTOR](_ => 0);
      for b := 0 to SECTOR
        modifies sector
        invariant forall k :: 0 <= k < b ==>
                    sector[k] == if i * SECTOR + k < VAULT_SIZE then vault[i * SECTOR + k] else 0
      {
        var offset := i * SECTOR + b;
        sector[b] := if offset < VAULT_SIZE then vault[offset] else 0;
      }
      r := sector[..];
    }

    /** `write_disk_signature` */
    method WriteSignature()
      requires Valid()
      modifies disk
      ensures disk[..] == old(disk[..])[SIGNATURE_LBA := SignatureSector()]
    {
      var sector := new byte[SECTOR](_ => 0);
      sector[0], sector[1], sector[2], sector[3] := 0x46, 0x4C, 0x59, 0x4E;
      sector[4], sector[5], sector[6], sector[7] := 0x47, 0x52, 0x49, 0x44;
      sector[8] := VAULT_VERSION;
      assert sector[..] == SignatureSector();
      disk[SIGNATURE_LBA] := sector[..];
    }

    /** `migrate_vault_v5_to_v6` */
    method MigrateVault()
      requires Valid()
      modifies vault, disk
      ensures vault[..] == Migrate(old(vault[..])) && disk[..] == Written(old(disk[..]), vault[..])
    {
      hide Seal, Written;
      PutVersion();
      RecomputeChecksum();
      Write();
    }

    method PutVersion()
      requires Valid()
      modifies vault
      ensures vault[..] == old(vault[..])[..4] + LeBytes(VAULT_VERSION, 4) + old(vault[..])[8..]
    {
      var field := LeBytes(VAULT_VERSION, 4);
      for i := 0 to 4
        invariant forall k :: 0 <= k < VAULT_SIZE ==> vault[k] == if 4 <= k < 4 + i then field[k - 4] else old(vault[k])
      {
        vault[4 + i] := field[i];
      }
    }

    /** `storage_load_disk` */
    method LoadFromDisk() returns (ok: bool)
      requires Valid()
      modifies vault, disk
      ensures Load(ok, vault[..], disk[..]) == LoadDisk(old(disk[..]), old(vault[..]))
    {
      hide Loaded, ValidVersion, Written, Migrate;
      var sig := disk[SIGNATURE_LBA];
      if sig[..8] != SIGNATURE { return false; }
      if sig[8] == VAULT_VERSION {
        LoadSectors(VAULT_SECTORS);
        ok := IsValid(VAULT_VERSION);
      } else if sig[8] == VAULT_VERSION_V5 {
        LoadSectors(VAULT_SECTORS_V5);
        ok := IsValid(VAULT_VERSION_V5);
        if ok { MigrateVault(); }
      } else {
        ok := false;
      }
    }
  }
}
