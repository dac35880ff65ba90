/**
 The connection as it runs: its fields and receive buffer are updated by every segment.
 Each method is proved to do to the connection what `Tcp` says, and to answer with the bytes
 of the segments listed there.
 */
module TcpConnection {
  import opened Common
  import opened Checksum
  import opened Tcp

  /** Segments as they leave for the peer. */
  function Packets(src: U32, dst: U32, ss: seq<Segment>): (r: seq<seq<byte>>)
    ensures |r| == |ss|
  {
    seq(|ss|, i requires 0 <= i < |ss| => SegmentBytes(src, dst, ss[i]))
  }

  class Connection {
    const remoteIp: U32
    const remotePort: Port
    const localPort: Port
    const localIp: U32
    var txSeq: U32
    var rxSeq: U32
    var established: bool
    var closed: bool
    var error: bool
    const rxBuf: array<byte>
    var rxLen: nat

    ghost predicate Valid()
      reads this
    {
      rxBuf.Length == RX_CAP && rxLen <= RX_CAP
    }

    ghost function State(): Conn
      requires Valid()
      reads this, rxBuf
    {
      Conn(remoteIp, remotePort, localPort, txSeq, rxSeq, established, closed, error, rxBuf[..rxLen])
    }

    /** The fields as `tcp_connect` sets them. */
    constructor (ip: U32, port: Port, own: Port, local: U32, isn: U32)
      ensures Valid() && fresh(rxBuf)
      ensures State() == Conn(ip, port, own, isn, 0, false, false, false, []) && localIp == local
    {
      remoteIp, remotePort, localPort, localIp := ip, port, own, local;
      txSeq, rxSeq := isn, 0;
      established, closed, error := false, false, false;
      rxBuf := new byte[RX_CAP](_ => 0);
      rxLen := 0;
    }

    /** `send_segment` */
    method SendSegment(flags: byte, data: seq<byte>) returns (pkt: seq<byte>)
      requires Valid()
      ensures pkt == SegmentBytes(localIp, remoteIp, Make(State(), flags, data))
    {
      hide TcpChecksum, Layout;
      var len := |data|;
      if 20 + len > MAX_SEGMENT { len := MAX_SEGMENT - 20; }
      var s := Segment(localPort, remotePort, txSeq, rxSeq, flags, data[..len]);
      var seg := LayOut(s);
      var csum := TcpChecksumLoop(localIp, remoteIp, seg[..]);
      ghost var before := seg[..];
      Put(seg, 16, Be16(csum));
      pkt := seg[..];
      assert pkt == Put16(before, 16, csum);
    }

    /** The data loop of `tcp_input`. */
    method CopyIn(data: seq<byte>, copy: nat)
      requires Valid() && copy <= |data| && rxLen + copy <= RX_CAP
      modifies this`rxLen, rxBuf
      ensures Valid() && rxLen == old(rxLen) + copy && rxBuf[..rxLen] == old(rxBuf[..rxLen]) + data[..copy]
    {
      for i := 0 to copy
        invariant rxLen == old(rxLen) && rxBuf[..rxLen] == old(rxBuf[..rxLen])
        invariant forall k :: 0 <= k < i ==> rxBuf[rxLen + k] == data[k]
      {
        rxBuf[rxLen + i] := data[i];
      }
      rxLen := rxLen + copy;
    }

    method InputData(s: Segment) returns (sent: seq<seq<byte>>)
      requires Valid()
      modifies this, rxBuf
      ensures Valid() && State() == TakeData(old(State()), s).0
      ensures sent == Packets(localIp, remoteIp, TakeData(old(State()), s).1)
    {
      hide SegmentBytes;
      sent := [];
      if |s.data| > 0 {
        if rxSeq == 0 { rxSeq := s.number; }
        if s.number == rxSeq {
          var avail := RX_CAP - rxLen;
          var copy := if |s.data| < avail then |s.data| else avail;
          CopyIn(s.data, copy);
          rxSeq := (rxSeq + copy) % TWO32;
          if copy < |s.data| { error := true; }
          var pkt := SendSegment(ACK, []);
          sent := [pkt];
        }
      }
    }

    method InputFin(s: Segment) returns (sent: seq<seq<byte>>)
      requires Valid()
      modifies this
      ensures Valid() && State() == TakeFin(old(State()), s).0
      ensures sent == Packets(localIp, remoteIp, TakeFin(old(State()), s).1)
    {
      hide SegmentBytes;
      sent := [];
      if Has(s.flags, FIN) {
        rxSeq := (rxSeq + 1) % TWO32;
        var a := SendSegment(ACK, []);
        var b := SendSegment(FIN + ACK, []);
        txSeq := (txSeq + 1) % TWO32;
        closed := true;
        sent := [a, b];
      }
    }

    /** `tcp_input` on a packet from srcIp. */
    method HandlePacket(srcIp: U32, pkt: seq<byte>) returns (sent: seq<seq<byte>>)
      requires Valid()
      modifies this, rxBuf
      ensures Valid()
      ensures match Parse(pkt)
              case None => State() == old(State()) && sent == []
              case Some(s) => State() == Input(old(State()), srcIp, s).0
                              && sent == Packets(localIp, remoteIp, Input(old(State()), srcIp, s).1)
    {
      hide SegmentBytes, TakeData, TakeFin, Has, Parse;
      sent := [];
      var parsed := Parse(pkt);
      if parsed.None? { return; }
      var s := parsed.value;
      if srcIp != remoteIp || s.srcPort != remotePort || s.dstPort != localPort { return; }
      if Has(s.flags, RST) {
        closed, error := true, true;
        return;
      }
      if Has(s.flags, SYN) && Has(s.flags, ACK) {
        rxSeq := (s.number + 1) % TWO32;
        txSeq := s.ack;
        var pkt := SendSegment(ACK, []);
        established := true;
        return [pkt];
      }
      if Has(s.flags, ACK) {
        var a := InputData(s);
        var b := InputFin(s);
        sent := a + b;
      }
    }

    /** One round of `tcp_send`. */
    method SendRound(data: seq<byte>) returns (pkt: seq<byte>)
      requires Valid() && |data| <= CHUNK
      modifies this`txSeq
      ensures Valid() && State() == SendChunk(old(State()), data).0
      ensures pkt == SegmentBytes(localIp, remoteIp, SendChunk(old(State()), data).1)
    {
      hide SegmentBytes, Make;
      pkt := SendSegment(PSH + ACK, data);
      txSeq := (txSeq + |data|) % TWO32;
    }
  }

  /** The `put_u16_be`, `put_u32_be` and copy loops. */
  method Put(a: array<byte>, at: nat, b: seq<byte>)
    requires at + |b| <= a.Length
    modifies a
    ensures a[..] == old(a[..at]) + b + old(a[at + |b|..])
  {
    for i := 0 to |b|
      invariant forall k :: 0 <= k < i ==> a[at + k] == b[k]
      invariant forall k :: 0 <= k < a.Length && !(at <= k < at + i) ==> a[k] == old(a[k])
    {
      a[at + i] := b[i];
    }
  }

  function Blank(n: nat): (z: seq<byte>)
    ensures |z| == n
  {
    seq(n, _ => 0)
  }

  /** The header fields of `send_segment`, front to back. */
  function Fields(s: Segment): (h: seq<byte>)
    ensures |h| == 12
  {
    Be16(s.srcPort) + Be16(s.dstPort) + Be32(s.number) + Be32(s.ack)
  }

  /** Fill in what comes next in a segment that is blank from there on. */
  method PutNext(seg: array<byte>, ghost head: seq<byte>, at: nat, b: seq<byte>) returns (ghost next: seq<byte>)
    requires at == |head| && at + |b| <= seg.Length && seg[..] == head + Blank(seg.Length - at)
    modifies seg
    ensures next == head + b && seg[..] == next + Blank(seg.Length - |next|)
  {
    next := head + b;
    ghost var was := seg[..];
    Put(seg, at, b);
    assert was[..at] == head && was[at + |b|..] == Blank(seg.Length - at - |b|);
  }

  /** Ports, number and acknowledgement. */
  method LayFields(s: Segment, seg: array<byte>) returns (ghost h: seq<byte>)
    requires seg.Length >= 12 && seg[..] == Blank(seg.Length)
    modifies seg
    ensures h == Fields(s) && seg[..] == h + Blank(seg.Length - 12)
  {
    hide Be16, Be32, Blank;
    h := [];
    assert [] + Blank(seg.Length) == Blank(seg.Length);
    h := PutNext(seg, h, 0, Be16(s.srcPort));
    h := PutNext(seg, h, 2, Be16(s.dstPort));
    h := PutNext(seg, h, 4, Be32(s.number));
    h := PutNext(seg, h, 8, Be32(s.ack));
    assert h == Fields(s);
  }

  method LayOut(s: Segment) returns (seg: array<byte>)
    ensures fresh(seg) && seg[..] == Layout(s)
  {
    hide Be16, Be32, Blank, Layout, Fields;
    seg := new byte[20 + |s.data|](_ => 0);
    BlankIs(seg[..]);
    ghost var h := LayFields(s, seg);
    h := PutNext(seg, h, 12, [0x50, s.flags]);
    h := PutNext(seg, h, 14, Be16(WINDOW));
    BlankSplit(h, 4, |s.data|);
    h := PutNext(seg, h + [0, 0, 0, 0], 20, s.data);
    BlankNone(h);
    LayoutIs(s);
  }

  lemma {:induction false} BlankIs(b: seq<byte>)
    requires forall k :: 0 <= k < |b| ==> b[k] == 0
    ensures b == Blank(|b|)
  {
  }

  lemma {:induction false} BlankSplit(head: seq<byte>, m: nat, n: nat)
    requires m == 4
    ensures head + Blank(m + n) == head + [0, 0, 0, 0] + Blank(n)
  {
  }

  lemma {:induction false} BlankNone(b: seq<byte>)
    ensures b + Blank(0) == b
  {
  }

  lemma {:induction false} LayoutIs(s: Segment)
    ensures Layout(s) == Fields(s) + [0x50, s.flags] + Be16(WINDOW) + [0, 0, 0, 0] + s.data
  {
    hide Be16, Be32;
  }
}
