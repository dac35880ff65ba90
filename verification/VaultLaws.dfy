/**
 The vault on disk, told by offsets and numbers, and exactly when it loads.
 */
module VaultLaws {
  import opened Common
  import Crc32
  import opened Vault

  /** "FLYNGRID", then the version. */
  predicate Signed(s: Sector, version: nat) {
    s[..8] == ['F' as int, 'L' as int, 'Y' as int, 'N' as int, 'G' as int, 'R' as int, 'I' as int, 'D' as int] && s[8] == version
  }

  /** Byte i of a record kept in the sectors from 32 on, of which n are read; the rest counts
      as zero. */
  function Kept(disk: seq<Sector>, n: nat, i: nat): byte
    requires |disk| >= 35 && n <= 3
  {
    if i / 512 < n then disk[32 + i / 512][i % 512] else 0
  }

  lemma {:induction false} LoadedIs(disk: seq<Sector>, n: nat)
    requires |disk| >= 35 && n <= 3
    ensures |Loaded(disk, n)| == 1028 && forall i :: 0 <= i < 1028 ==> Loaded(disk, n)[i] == Kept(disk, n, i)
  {
  }

  /** A record is valid when it begins with the magic number and the version and carries in
      its third word the checksum of its first 1024 bytes with that word as zero. */
  lemma {:induction false} ValidIs(v: Record, version: nat)
    ensures ValidVersion(v, version)
            <==> Le(v, 0, 4) == 0x4752_4431 && Le(v, 4, 4) == version && Le(v, 8, 4) == Crc32.Checksum(v[..8] + [0, 0, 0, 0] + v[12..1024])
  {
    hide Le, Crc32.Checksum;
    NoSum();
    assert WithSum(v, 0)[..1024] == v[..8] + [0, 0, 0, 0] + v[12..1024];
  }

  lemma {:induction false} NoSum()
    ensures LeBytes(0, 4) == [0, 0, 0, 0]
  {
    assert LeBytes(0, 0) == [] && LeBytes(0, 1) == [0] && LeBytes(0, 2) == [0, 0] && LeBytes(0, 3) == [0, 0, 0];
  }

  /** A disk loads exactly when it is signed and holds a valid record of the version it is
      signed for: three sectors of the present one, two of the one before. */
  lemma {:induction false} LoadsIff(disk: seq<Sector>, was: Record)
    requires |disk| >= 35
    ensures LoadDisk(disk, was).ok
            <==> (Signed(disk[31], 6) && ValidVersion(Loaded(disk, 3), 6)) || (Signed(disk[31], 5) && ValidVersion(Loaded(disk, 2), 5))
    ensures Signed(disk[31], 6) ==> LoadDisk(disk, was).vault == Loaded(disk, 3) && LoadDisk(disk, was).disk == disk
  {
    hide ValidVersion, Loaded, Written, Migrate;
  }

  /** A disk that holds a valid vault of the old version loads; the vault keeps its contents
      under the present version, and the disk holds it from then on, everything else on it
      untouched. */
  lemma {:induction false} OldVaultLoads(disk: seq<Sector>, was: Record, later: Record)
    requires |disk| >= 35 && Signed(disk[31], 5) && ValidVersion(Loaded(disk, 2), 5)
    ensures var r := LoadDisk(disk, was);
            && r.ok && r.vault[12..] == Loaded(disk, 2)[12..] && Le(r.vault, 4, 4) == 6 && ValidVersion(r.vault, 6)
            && LoadDisk(r.disk, later) == r
            && |r.disk| == |disk| && forall i :: 0 <= i < |disk| && !(31 <= i < 35) ==> r.disk[i] == disk[i]
  {
    hide ValidVersion, Loaded, Migrate, SignatureSector, VaultSector, Seal;
    LoadsIff(disk, was);
    MigratedValid(Loaded(disk, 2));
    VersionOf(Migrate(Loaded(disk, 2)), 6);
    LoadStable(disk, was, later);
  }

  lemma {:induction false} VersionOf(v: Record, version: nat)
    requires ValidVersion(v, version)
    ensures Le(v, 4, 4) == version
  {
  }

  /** A disk signed for neither version, or not at all, leaves everything as it was. */
  lemma {:induction false} UnsignedRefused(disk: seq<Sector>, was: Record)
    requires |disk| >= 35 && !Signed(disk[31], 5) && !Signed(disk[31], 6)
    ensures var r := LoadDisk(disk, was); !r.ok && r.vault == was && r.disk == disk
  {
    hide ValidVersion, Loaded, Written, Migrate;
  }

  /** What is written: the signature, the record, zeros behind it, and nothing elsewhere. */
  lemma {:induction false} WrittenIs(disk: seq<Sector>, v: Record)
    requires |disk| >= 35
    ensures var d := Written(disk, v);
            && |d| == |disk| && Signed(d[31], 6) && (forall i :: 9 <= i < 512 ==> d[31][i] == 0)
            && (forall i :: 0 <= i < 3 * 512 ==> d[32 + i / 512][i % 512] == if i < 1028 then v[i] else 0)
            && (forall i :: 0 <= i < |disk| && !(31 <= i < 35) ==> d[i] == disk[i])
  {
    var d := Written(disk, v);
    forall i | 0 <= i < 3 * 512 ensures d[32 + i / 512][i % 512] == if i < 1028 then v[i] else 0 {
      assert i == i / 512 * 512 + i % 512;
    }
  }
}
