/**
 The ones'-complement checksum of IP and TCP headers: sums of big-endian 16-bit words kept
 in 32 bits, folded, and complemented.
 */
module Checksum {
  import opened Common

  // ---- big-endian fields ----

  function Be16(v: nat): (b: seq<byte>)
    requires v < 0x1_0000
    ensures |b| == 2
  {
    [v / 256, v % 256]
  }

  function Be32(v: nat): (b: seq<byte>)
    requires v < TWO32
    ensures |b| == 4
  {
    Be16(v / 0x1_0000) + Be16(v % 0x1_0000)
  }

  /** The 16-bit word of two bytes. */
  function Word(hi: nat, lo: nat): nat { 256 * hi + lo }

  function Get16(b: seq<byte>, i: nat): (v: nat)
    requires i + 2 <= |b|
    ensures v < 0x1_0000
  {
    Word(b[i], b[i + 1])
  }

  function Get32(b: seq<byte>, i: nat): (v: nat)
    requires i + 4 <= |b|
    ensures v < TWO32
  {
    0x1_0000 * Get16(b, i) + Get16(b, i + 2)
  }

  // ---- the sum ----

  /** Sum of the 16-bit words of a buffer, the last one padded with a zero byte. */
  function Words(data: seq<byte>): nat {
    if data == [] then 0
    else if |data| == 1 then Word(data[0], 0)
    else Word(data[0], data[1]) + Words(data[2..])
  }

  /** `ones_complement`: the same in a 32-bit accumulator. */
  function OnesSum(data: seq<byte>, seed: nat): (s: nat)
    requires seed < TWO32
    ensures s < TWO32
    decreases |data|
  {
    if data == [] then seed
    else if |data| == 1 then (seed + Word(data[0], 0)) % TWO32
    else OnesSum(data[2..], (seed + Word(data[0], data[1])) % TWO32)
  }

  /** The folding loop of `finalize_checksum`. */
  function Fold(sum: nat): (r: nat)
    ensures r <= 0xFFFF
  {
    if sum <= 0xFFFF then sum else Fold(sum % 0x1_0000 + sum / 0x1_0000)
  }

  /** Folding keeps the sum modulo 0xFFFF, and makes a zero of a zero only. */
  lemma {:induction false} FoldKeeps(sum: nat)
    ensures Fold(sum) % 0xFFFF == sum % 0xFFFF && (Fold(sum) == 0 <==> sum == 0)
  {
    if sum > 0xFFFF {
      FoldOnce(sum);
      FoldKeeps(sum % 0x1_0000 + sum / 0x1_0000);
    }
  }

  lemma {:induction false} FoldOnce(sum: nat)
    ensures (sum % 0x1_0000 + sum / 0x1_0000) % 0xFFFF == sum % 0xFFFF
    ensures sum > 0 ==> sum % 0x1_0000 + sum / 0x1_0000 > 0
  {
    var low, high := sum % 0x1_0000, sum / 0x1_0000;
    WholeOnes(low + high, high);
  }

  lemma {:induction false} WholeOnes(a: nat, k: nat)
    ensures (a + 0xFFFF * k) % 0xFFFF == a % 0xFFFF
    decreases k
  {
    if k > 0 { WholeOnes(a + 0xFFFF, k - 1); }
  }

  function Finalize(sum: nat): (r: nat)
    ensures r <= 0xFFFF
  {
    0xFFFF - Fold(sum)
  }

  /** `ip_checksum` */
  function IpChecksum(data: seq<byte>): (r: nat)
    ensures r <= 0xFFFF
  {
    Finalize(OnesSum(data, 0))
  }

  /** The 12 bytes that stand for the addresses in a TCP checksum. */
  function PseudoHeader(src: nat, dst: nat, len: nat): (b: seq<byte>)
    requires src < TWO32 && dst < TWO32
    ensures |b| == 12
  {
    Be32(src) + Be32(dst) + [0, 6] + Be16(len % 0x1_0000)
  }

  /** `tcp_checksum` */
  function TcpChecksum(src: nat, dst: nat, seg: seq<byte>): (r: nat)
    requires src < TWO32 && dst < TWO32
    ensures r <= 0xFFFF
  {
    Finalize(OnesSum(seg, OnesSum(PseudoHeader(src, dst, |seg|), 0)))
  }

  // ---- the loops ----

  lemma {:induction false} SumStep(data: seq<byte>, i: nat, sum: nat)
    requires i + 1 < |data| && sum < TWO32
    ensures OnesSum(data[i..], sum) == OnesSum(data[i + 2..], (sum + Word(data[i], data[i + 1])) % TWO32)
  {
    hide Word;
    assert data[i..][2..] == data[i + 2..];
  }

  lemma {:induction false} SumEnd(data: seq<byte>, i: nat, sum: nat)
    requires i <= |data| <= i + 1 && sum < TWO32
    ensures OnesSum(data[i..], sum) == if i == |data| then sum else (sum + Word(data[i], 0)) % TWO32
  {
    hide Word;
  }

  method SumLoop(data: seq<byte>, seed: nat) returns (sum: nat)
    requires seed < TWO32
    ensures sum == OnesSum(data, seed)
  {
    hide OnesSum, Word;
    sum := seed;
    var i := 0;
    assert data[0..] == data;
    while i + 1 < |data|
      invariant i <= |data| && i % 2 == 0 && sum < TWO32
      invariant OnesSum(data[i..], sum) == OnesSum(data, seed)
    {
      SumStep(data, i, sum);
      sum := (sum + Word(data[i], data[i + 1])) % TWO32;
      i := i + 2;
    }
    SumEnd(data, i, sum);
    if |data| % 2 == 1 {
      sum := (sum + Word(data[|data| - 1], 0)) % TWO32;
    }
  }

  /** The folding loop ends: each round makes the sum smaller. */
  method FinalizeLoop(s: nat) returns (r: nat)
    ensures r == Finalize(s)
  {
    var sum := s;
    while sum / 0x1_0000 > 0
      invariant Fold(sum) == Fold(s)
      decreases sum
    {
      sum := sum % 0x1_0000 + sum / 0x1_0000;
    }
    r := 0xFFFF - sum;
  }

  method TcpChecksumLoop(src: nat, dst: nat, seg: seq<byte>) returns (r: nat)
    requires src < TWO32 && dst < TWO32
    ensures r == TcpChecksum(src, dst, seg)
  {
    var sum := SumLoop(PseudoHeader(src, dst, |seg|), 0);
    sum := SumLoop(seg, sum);
    r := FinalizeLoop(sum);
  }

  // ---- no overflow ----

  lemma {:induction false} WordsBound(data: seq<byte>)
    ensures Words(data) <= 0xFFFF * ((|data| + 1) / 2)
    decreases |data|
  {
    if |data| >= 2 { WordsBound(data[2..]); }
  }

  lemma {:induction false} WordBound(hi: byte, lo: byte)
    ensures Word(hi, lo) <= 0xFFFF
  {
  }

  lemma {:induction false} OnesSumExact(data: seq<byte>, seed: nat)
    requires seed + 0xFFFF * ((|data| + 1) / 2) < TWO32
    ensures OnesSum(data, seed) == seed + Words(data)
    decreases |data|
  {
    hide Word;
    if |data| >= 1 { WordBound(data[0], if |data| == 1 then 0 else data[1]); }
    if |data| >= 2 {
      assert (|data| + 1) / 2 == (|data[2..]| + 1) / 2 + 1;
      OnesSumExact(data[2..], seed + Word(data[0], data[1]));
    }
  }

  /** In every packet of at most 65535 bytes the 32-bit sum is the true sum, with the
      pseudo-header as its seed or without. */
  lemma {:induction false} NoOverflow(src: nat, dst: nat, data: seq<byte>)
    requires src < TWO32 && dst < TWO32 && |data| <= 65535
    ensures OnesSum(data, 0) == Words(data)
    ensures var p := PseudoHeader(src, dst, |data|);
            OnesSum(data, OnesSum(p, 0)) == Words(p) + Words(data)
  {
    hide PseudoHeader;
    var p := PseudoHeader(src, dst, |data|);
    OnesSumExact(data, 0);
    OnesSumExact(p, 0);
    WordsBound(p);
    OnesSumExact(data, Words(p));
  }

  // ---- the stored checksum ----

  lemma {:induction false} WordsAppend(a: seq<byte>, b: seq<byte>)
    requires |a| % 2 == 0
    ensures Words(a + b) == Words(a) + Words(b)
    decreases |a|
  {
    if a == [] {
      assert a + b == b;
    } else {
      assert (a + b)[2..] == a[2..] + b;
      WordsAppend(a[2..], b);
    }
  }

  /** A sum seeded with that of the pseudo-header is the sum of the two put together. */
  lemma {:induction false} SeededIsConcatenation(src: nat, dst: nat, seg: seq<byte>)
    requires src < TWO32 && dst < TWO32 && |seg| <= 65535
    ensures var p := PseudoHeader(src, dst, |seg|);
            OnesSum(seg, OnesSum(p, 0)) == Words(p + seg)
    ensures TcpChecksum(src, dst, seg) == Finalize(Words(PseudoHeader(src, dst, |seg|) + seg))
  {
    hide PseudoHeader, Finalize;
    NoOverflow(src, dst, seg);
    WordsAppend(PseudoHeader(src, dst, |seg|), seg);
  }

  /** The two bytes at an even place of a buffer replaced. */
  function Put16(data: seq<byte>, i: nat, v: nat): (r: seq<byte>)
    requires i + 2 <= |data| && v < 0x1_0000
    ensures |r| == |data|
  {
    data[..i] + Be16(v) + data[i + 2..]
  }

  lemma {:induction false} WordsPut(data: seq<byte>, i: nat, v: nat)
    requires i % 2 == 0 && i + 2 <= |data| && v < 0x1_0000 && data[i] == 0 && data[i + 1] == 0
    ensures Words(Put16(data, i, v)) == Words(data) + v
  {
    var a, b := data[..i], data[i + 2..];
    assert data == a + ([0, 0] + b);
    assert Put16(data, i, v) == a + (Be16(v) + b);
    WordsAppend(a, [0, 0] + b);
    WordsAppend([0, 0], b);
    WordsAppend(a, Be16(v) + b);
    WordsAppend(Be16(v), b);
    TwoBytes(0, 0);
    TwoBytes(v / 256, v % 256);
  }

  lemma {:induction false} TwoBytes(a: byte, b: byte)
    ensures Words([a, b]) == Word(a, b)
  {
    assert [a, b][2..] == [];
  }

  /** A sum and its complement fold to all ones. */
  lemma {:induction false} FoldComplement(sum: nat)
    requires sum > 0
    ensures Fold(sum + Finalize(sum)) == 0xFFFF
  {
    hide Fold;
    FoldKeeps(sum);
    FoldKeeps(sum + Finalize(sum));
    var f := Fold(sum);
    assert (sum + (0xFFFF - f)) % 0xFFFF == 0;
    var r := Fold(sum + Finalize(sum));
    assert r % 0xFFFF == 0 && r != 0;
  }

  /** What a receiver checks of an IP header. */
  predicate FoldsToOnes(header: seq<byte>) { Fold(OnesSum(header, 0)) == 0xFFFF }

  /** A receiver that sums an IP header with its checksum in place folds it to 0xFFFF. */
  lemma {:induction false} StoredIpChecksum(header: seq<byte>, i: nat)
    requires i % 2 == 0 && i + 2 <= |header| <= 65535 && header[i] == 0 && header[i + 1] == 0
    requires exists k :: 0 <= k < |header| && header[k] != 0
    ensures FoldsToOnes(Put16(header, i, IpChecksum(header)))
  {
    hide Fold, Finalize, Put16, OnesSum, Words, PseudoHeader, Be16, Be32;
    var c := IpChecksum(header);
    NoOverflow(0, 0, header);
    NoOverflow(0, 0, Put16(header, i, c));
    WordsPut(header, i, c);
    WordsPositive(header);
    FoldComplement(Words(header));
  }

  lemma {:induction false} WordsPositive(data: seq<byte>)
    requires exists k :: 0 <= k < |data| && data[k] != 0
    ensures Words(data) > 0
    decreases |data|
  {
    if |data| >= 2 && data[0] == 0 && data[1] == 0 {
      var k :| 0 <= k < |data| && data[k] != 0;
      assert data[2..][k - 2] != 0;
      WordsPositive(data[2..]);
    }
  }

  /** What a receiver checks of a segment: its sum with the pseudo-header folds to 0xFFFF. */
  predicate Sound(src: nat, dst: nat, seg: seq<byte>)
    requires src < TWO32 && dst < TWO32
  {
    Fold(OnesSum(seg, OnesSum(PseudoHeader(src, dst, |seg|), 0))) == 0xFFFF
  }

  /** A segment with its checksum put in at i. */
  function Stamped(src: nat, dst: nat, seg: seq<byte>, i: nat): (r: seq<byte>)
    requires src < TWO32 && dst < TWO32 && i + 2 <= |seg|
    ensures |r| == |seg|
  {
    Put16(seg, i, TcpChecksum(src, dst, seg))
  }

  /** A segment with its checksum in place is sound. */
  lemma {:induction false} StoredTcpChecksum(src: nat, dst: nat, seg: seq<byte>, i: nat)
    requires src < TWO32 && dst < TWO32 && i % 2 == 0 && i + 2 <= |seg| <= 65535 && seg[i] == 0 && seg[i + 1] == 0
    ensures Sound(src, dst, Stamped(src, dst, seg, i))
  {
    hide Fold, Finalize, Put16, PseudoHeader, OnesSum, Words, Be16, Be32;
    var c := TcpChecksum(src, dst, seg);
    NoOverflow(src, dst, seg);
    NoOverflow(src, dst, Put16(seg, i, c));
    WordsPut(seg, i, c);
    var p := PseudoHeader(src, dst, |seg|);
    assert p[9] == 6 by { PseudoNine(src, dst, |seg|); }
    WordsPositive(p);
    FoldComplement(Words(p) + Words(seg));
  }

  lemma {:induction false} PseudoNine(src: nat, dst: nat, len: nat)
    requires src < TWO32 && dst < TWO32
    ensures PseudoHeader(src, dst, len)[9] == 6
  {
  }

  // ---- the IP header ----

  /** The header `net_send_ip` builds in front of a payload, before its checksum. */
  function IpFields(src: nat, dst: nat, proto: byte, len: nat): (h: seq<byte>)
    requires src < TWO32 && dst < TWO32 && len + 20 < 0x1_0000
    ensures |h| == 20
  {
    [0x45, 0] + Be16(20 + len) + [0, 0, 0x40, 0] + [64, proto, 0, 0] + Be32(src) + Be32(dst)
  }

  function IpHeader(src: nat, dst: nat, proto: byte, len: nat): (h: seq<byte>)
    requires src < TWO32 && dst < TWO32 && len + 20 < 0x1_0000
    ensures |h| == 20
  {
    Put16(IpFields(src, dst, proto, len), 10, IpChecksum(IpFields(src, dst, proto, len)))
  }

  lemma {:induction false} Get16Of(b: seq<byte>, i: nat, v: nat)
    requires i + 2 <= |b| && v < 0x1_0000 && b[i..i + 2] == Be16(v)
    ensures Get16(b, i) == v
  {
    assert b[i] == b[i..i + 2][0] && b[i + 1] == b[i..i + 2][1];
  }

  lemma {:induction false} Get32Of(b: seq<byte>, i: nat, v: nat)
    requires i + 4 <= |b| && v < TWO32 && b[i..i + 4] == Be32(v)
    ensures Get32(b, i) == v
  {
    hide Be16, Get16;
    assert b[i..i + 2] == b[i..i + 4][..2] && b[i + 2..i + 4] == b[i..i + 4][2..];
    Get16Of(b, i, v / 0x1_0000);
    Get16Of(b, i + 2, v % 0x1_0000);
  }

  /** The header with its checksum in place folds to 0xFFFF. */
  lemma {:induction false} IpHeaderSound(src: nat, dst: nat, proto: byte, len: nat)
    requires src < TWO32 && dst < TWO32 && len + 20 < 0x1_0000
    ensures FoldsToOnes(IpHeader(src, dst, proto, len))
  {
    hide Fold, IpChecksum, OnesSum, Be16, Be32, IpFields;
    IpFieldsAt(src, dst, proto, len);
    StoredIpChecksum(IpFields(src, dst, proto, len), 10);
  }

  /** The header says the length, the protocol and the addresses. */
  lemma {:induction false} IpHeaderReads(src: nat, dst: nat, proto: byte, len: nat)
    requires src < TWO32 && dst < TWO32 && len + 20 < 0x1_0000
    ensures var h := IpHeader(src, dst, proto, len);
            Get16(h, 2) == 20 + len && h[9] == proto && Get32(h, 12) == src && Get32(h, 16) == dst
  {
    hide IpChecksum, Be16, Be32, Get16, Get32, IpFields;
    var f, h := IpFields(src, dst, proto, len), IpHeader(src, dst, proto, len);
    IpFieldsAt(src, dst, proto, len);
    Kept(f, 10, IpChecksum(f), 2, 4);
    Kept(f, 10, IpChecksum(f), 9, 10);
    Kept(f, 10, IpChecksum(f), 12, 16);
    Kept(f, 10, IpChecksum(f), 16, 20);
    assert h[9] == h[9..10][0] && f[9] == f[9..10][0];
    Get16Of(h, 2, 20 + len);
    Get32Of(h, 12, src);
    Get32Of(h, 16, dst);
  }

  /** Bytes away from a stored number stay. */
  lemma {:induction false} Kept(f: seq<byte>, i: nat, v: nat, a: nat, b: nat)
    requires i + 2 <= |f| && v < 0x1_0000 && a <= b <= |f| && (b <= i || i + 2 <= a)
    ensures Put16(f, i, v)[a..b] == f[a..b]
  {
    hide Be16;
  }

  lemma {:induction false} IpFieldsAt(src: nat, dst: nat, proto: byte, len: nat)
    requires src < TWO32 && dst < TWO32 && len + 20 < 0x1_0000
    ensures var f := IpFields(src, dst, proto, len);
            && f[0] == 0x45 && f[2..4] == Be16(20 + len) && f[9] == proto && f[10] == 0 && f[11] == 0
            && f[12..16] == Be32(src) && f[16..20] == Be32(dst)
  {
    hide Be16, Be32;
  }
}
