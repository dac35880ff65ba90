/**
 Where the fields of headers stand in the bytes that are sent, the highest byte first, told
 by offsets into the bytes.
 */
module WireFormat {
  import opened Common
  import opened Checksum
  import opened Tcp

  /** The number in n bytes at i, the highest first. */
  function Big(b: seq<byte>, i: nat, n: nat): (v: nat)
    requires i + n <= |b|
    decreases n
  {
    if n == 0 then 0 else 256 * Big(b, i, n - 1) + b[i + n - 1]
  }

  lemma {:induction false} BigSame(b: seq<byte>, i: nat, c: seq<byte>, j: nat, n: nat)
    requires i + n <= |b| && j + n <= |c| && b[i..i + n] == c[j..j + n]
    ensures Big(b, i, n) == Big(c, j, n)
    decreases n
  {
    if n > 0 {
      assert b[i..i + n - 1] == b[i..i + n][..n - 1] && c[j..j + n - 1] == c[j..j + n][..n - 1];
      assert b[i + n - 1] == b[i..i + n][n - 1] && c[j + n - 1] == c[j..j + n][n - 1];
      BigSame(b, i, c, j, n - 1);
    }
  }

  lemma {:induction false} Big16(v: nat)
    requires v < 0x1_0000
    ensures Big(Be16(v), 0, 2) == v
  {
    var b := Be16(v);
    assert Big(b, 0, 0) == 0 && Big(b, 0, 1) == b[0] && Big(b, 0, 2) == 256 * Big(b, 0, 1) + b[1];
  }

  lemma {:induction false} Big32(v: nat)
    requires v < TWO32
    ensures Big(Be32(v), 0, 4) == v
  {
    var b := Be32(v);
    assert Big(b, 0, 0) == 0 && Big(b, 0, 1) == b[0] && Big(b, 0, 2) == 256 * Big(b, 0, 1) + b[1];
    assert Big(b, 0, 3) == 256 * Big(b, 0, 2) + b[2] && Big(b, 0, 4) == 256 * Big(b, 0, 3) + b[3];
  }

  /** A number that stands in a header. */
  lemma {:induction false} Stands16(b: seq<byte>, i: nat, v: nat)
    requires i + 2 <= |b| && v < 0x1_0000 && b[i..i + 2] == Be16(v)
    ensures Big(b, i, 2) == v
  {
    hide Be16, Big;
    assert Be16(v)[0..2] == Be16(v);
    BigSame(b, i, Be16(v), 0, 2);
    Big16(v);
  }

  lemma {:induction false} Stands32(b: seq<byte>, i: nat, v: nat)
    requires i + 4 <= |b| && v < TWO32 && b[i..i + 4] == Be32(v)
    ensures Big(b, i, 4) == v
  {
    hide Be32, Big;
    assert Be32(v)[0..4] == Be32(v);
    BigSame(b, i, Be32(v), 0, 4);
    Big32(v);
  }

  // ---- TCP, section 3.1 of RFC 9293 ----

  lemma {:induction false} SegmentFields(src: U32, dst: U32, s: Segment)
    ensures var b := SegmentBytes(src, dst, s);
            && Big(b, 0, 2) == s.srcPort && Big(b, 2, 2) == s.dstPort && Big(b, 4, 4) == s.number && Big(b, 8, 4) == s.ack
            && b[12] == 0x50 && b[13] == s.flags && Big(b, 14, 2) == 4096 && b[18] == 0 && b[19] == 0 && b[20..] == s.data
  {
    hide TcpChecksum, Layout, Be16, Be32, Big;
    var f, b := Layout(s), SegmentBytes(src, dst, s);
    LayoutAt(s);
    LayoutEnd(s);
    KeptBelow(f, 16, TcpChecksum(src, dst, f), 0, 2);
    KeptBelow(f, 16, TcpChecksum(src, dst, f), 2, 4);
    KeptBelow(f, 16, TcpChecksum(src, dst, f), 4, 8);
    KeptBelow(f, 16, TcpChecksum(src, dst, f), 8, 12);
    KeptBelow(f, 16, TcpChecksum(src, dst, f), 12, 14);
    KeptBelow(f, 16, TcpChecksum(src, dst, f), 14, 16);
    assert b[12] == b[12..14][0] && f[12] == f[12..14][0] && b[13] == b[12..14][1] && f[13] == f[12..14][1];
    KeptAbove(f, 16, TcpChecksum(src, dst, f));
    assert b[18..][0] == b[18] && f[18..][0] == f[18] && b[18..][1] == b[19] && f[18..][1] == f[19];
    assert b[20..] == b[18..][2..] && f[20..] == f[18..][2..];
    Stands16(b, 0, s.srcPort);
    Stands16(b, 2, s.dstPort);
    Stands32(b, 4, s.number);
    Stands32(b, 8, s.ack);
    Stands16(b, 14, WINDOW);
  }

  lemma {:induction false} KeptBelow(f: seq<byte>, i: nat, v: nat, a: nat, b: nat)
    requires i + 2 <= |f| && v < 0x1_0000 && a <= b <= i
    ensures Put16(f, i, v)[a..b] == f[a..b]
  {
    hide Be16;
  }

  lemma {:induction false} KeptAbove(f: seq<byte>, i: nat, v: nat)
    requires i + 2 <= |f| && v < 0x1_0000
    ensures Put16(f, i, v)[i + 2..] == f[i + 2..]
  {
    hide Be16;
  }

  lemma {:induction false} LayoutEnd(s: Segment)
    ensures Layout(s)[14..16] == Be16(WINDOW) && Layout(s)[18] == 0 && Layout(s)[19] == 0
  {
    hide Be16, Be32;
  }

  /** The flags as they stand in the header. */
  lemma {:induction false} FlagBits(f: byte)
    ensures Has(f, FIN) == (f % 2 == 1) && Has(f, SYN) == (f / 2 % 2 == 1) && Has(f, RST) == (f / 4 % 2 == 1)
    ensures Has(f, ACK) == (f / 16 % 2 == 1) && SYN + ACK == 0x12 && FIN + ACK == 0x11 && PSH + ACK == 0x18 && ACK == 0x10
  {
  }

  // ---- the pseudo-header, and IP ----

  /** The twelve bytes in front of a segment's sum: both addresses, a zero, the protocol, and
      the length. */
  lemma {:induction false} PseudoFields(src: nat, dst: nat, len: nat)
    requires src < TWO32 && dst < TWO32 && len < 0x1_0000
    ensures var b := PseudoHeader(src, dst, len);
            |b| == 12 && Big(b, 0, 4) == src && Big(b, 4, 4) == dst && b[8] == 0 && b[9] == 6 && Big(b, 10, 2) == len
  {
    hide Be16, Be32, Big;
    var b := PseudoHeader(src, dst, len);
    assert b[0..4] == Be32(src) && b[4..8] == Be32(dst) && b[10..12] == Be16(len);
    Stands32(b, 0, src);
    Stands32(b, 4, dst);
    Stands16(b, 10, len);
  }

  /** Section 3.1 of RFC 791, as the kernel fills it in: no options, not to be fragmented, 64
      hops. */
  lemma {:induction false} IpFieldsStand(src: nat, dst: nat, proto: byte, len: nat)
    requires src < TWO32 && dst < TWO32 && len + 20 < 0x1_0000
    ensures var b := IpHeader(src, dst, proto, len);
            && b[0] == 0x45 && b[1] == 0 && Big(b, 2, 2) == 20 + len && Big(b, 4, 2) == 0 && Big(b, 6, 2) == 0x4000
            && b[8] == 64 && b[9] == proto && Big(b, 12, 4) == src && Big(b, 16, 4) == dst
  {
    hide IpChecksum, Be16, Be32, Big, IpFields;
    var f, b := IpFields(src, dst, proto, len), IpHeader(src, dst, proto, len);
    FieldsStand(src, dst, proto, len);
    KeptBelow(f, 10, IpChecksum(f), 0, 2);
    KeptBelow(f, 10, IpChecksum(f), 2, 4);
    KeptBelow(f, 10, IpChecksum(f), 4, 6);
    KeptBelow(f, 10, IpChecksum(f), 6, 8);
    KeptBelow(f, 10, IpChecksum(f), 8, 10);
    KeptAbove(f, 10, IpChecksum(f));
    assert b[0] == b[0..2][0] && f[0] == f[0..2][0] && b[1] == b[0..2][1] && f[1] == f[0..2][1];
    assert b[8] == b[8..10][0] && f[8] == f[8..10][0] && b[9] == b[8..10][1] && f[9] == f[8..10][1];
    assert b[12..16] == b[12..][0..4] && f[12..16] == f[12..][0..4] && b[16..20] == b[12..][4..8] && f[16..20] == f[12..][4..8];
    BigSame(b, 2, f, 2, 2);
    BigSame(b, 4, f, 4, 2);
    BigSame(b, 6, f, 6, 2);
    BigSame(b, 12, f, 12, 4);
    BigSame(b, 16, f, 16, 4);
  }

  lemma {:induction false} FieldsStand(src: nat, dst: nat, proto: byte, len: nat)
    requires src < TWO32 && dst < TWO32 && len + 20 < 0x1_0000
    ensures var f := IpFields(src, dst, proto, len);
            && f[0] == 0x45 && f[1] == 0 && Big(f, 2, 2) == 20 + len && Big(f, 4, 2) == 0 && Big(f, 6, 2) == 0x4000
            && f[8] == 64 && f[9] == proto && Big(f, 12, 4) == src && Big(f, 16, 4) == dst
  {
    hide Be16, Be32, Big;
    var f := IpFields(src, dst, proto, len);
    assert f[2..4] == Be16(20 + len) && f[12..16] == Be32(src) && f[16..20] == Be32(dst);
    Stands16(f, 2, 20 + len);
    Stands32(f, 12, src);
    Stands32(f, 16, dst);
    TwoBytes(f, 4);
    TwoBytes(f, 6);
  }

  lemma {:induction false} TwoBytes(b: seq<byte>, i: nat)
    requires i + 2 <= |b|
    ensures Big(b, i, 2) == 256 * Word(0, b[i]) + b[i + 1]
  {
    assert Big(b, i, 0) == 0 && Big(b, i, 1) == 256 * Big(b, i, 0) + b[i] && Big(b, i, 2) == 256 * Big(b, i, 1) + b[i + 1];
  }
}
