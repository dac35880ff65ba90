/**
 The TCP connection: segments as bytes, what an arriving segment does, and a network that
 may lose, repeat and reorder.
 */
module Tcp {
  import opened Common
  import opened Checksum

  const FIN: nat := 1
  const SYN: nat := 2
  const RST: nat := 4
  const PSH: nat := 8
  const ACK: nat := 16
  const WINDOW: nat := 4096
  const RX_CAP: nat := 4096
  const MAX_SEGMENT: nat := 1500
  const CHUNK: nat := 1000

  type Port = x: nat | x < 0x1_0000
  type U32 = x: nat | x < TWO32

  datatype Segment = Segment(srcPort: Port, dstPort: Port, number: U32, ack: U32, flags: byte, data: seq<byte>)

  datatype Conn = Conn(remoteIp: U32, remotePort: Port, localPort: Port, txSeq: U32, rxSeq: U32,
                       established: bool, closed: bool, error: bool, rx: seq<byte>)

  predicate Has(flags: byte, bit: nat)
    requires bit > 0
  {
    flags / bit % 2 == 1
  }

  // ---- segments as bytes ----

  /** A segment as `send_segment` lays it out, before its checksum. */
  function Layout(s: Segment): (b: seq<byte>)
    ensures |b| == 20 + |s.data|
  {
    Be16(s.srcPort) + Be16(s.dstPort) + Be32(s.number) + Be32(s.ack) + [0x50, s.flags] + Be16(WINDOW) + [0, 0, 0, 0] + s.data
  }

  lemma {:induction false} LayoutAt(s: Segment)
    ensures var b := Layout(s);
            && b[0..2] == Be16(s.srcPort) && b[2..4] == Be16(s.dstPort) && b[4..8] == Be32(s.number) && b[8..12] == Be32(s.ack)
            && b[12] == 0x50 && b[13] == s.flags && b[16] == 0 && b[17] == 0 && b[20..] == s.data
  {
    hide Be16, Be32;
  }

  /** A segment with its checksum in place; a receiver finds it sound. */
  function SegmentBytes(src: U32, dst: U32, s: Segment): (b: seq<byte>)
    ensures |b| == 20 + |s.data|
    ensures |b| <= 65535 ==> Sound(src, dst, b)
  {
    LayoutAt(s);
    assert |Layout(s)| <= 65535 ==> Sound(src, dst, Stamped(src, dst, Layout(s), 16)) by {
      if |Layout(s)| <= 65535 { StoredTcpChecksum(src, dst, Layout(s), 16); }
    }
    Stamped(src, dst, Layout(s), 16)
  }

  /** What `tcp_input` reads out of a packet; none when it is too short or its data offset
      makes no sense. */
  function Parse(pkt: seq<byte>): Option<Segment> {
    if |pkt| < 20 then None
    else
      var off := pkt[12] / 16 * 4;
      if off < 20 || off > |pkt| then None
      else Some(Segment(Get16(pkt, 0), Get16(pkt, 2), Get32(pkt, 4), Get32(pkt, 8), pkt[13], pkt[off..]))
  }

  /** A segment that is sent is read back field by field. */
  lemma {:induction false} SegmentReads(src: U32, dst: U32, s: Segment)
    requires |s.data| <= MAX_SEGMENT - 20
    ensures Parse(SegmentBytes(src, dst, s)) == Some(s)
  {
    hide Layout, TcpChecksum, Get16, Get32, Be16, Be32;
    var f, b := Layout(s), SegmentBytes(src, dst, s);
    LayoutAt(s);
    assert b[0..2] == f[0..2] && b[2..4] == f[2..4] && b[4..8] == f[4..8] && b[8..12] == f[8..12];
    assert b[12] == f[12] && b[13] == f[13] && b[20..] == f[20..];
    Get16Of(b, 0, s.srcPort);
    Get16Of(b, 2, s.dstPort);
    Get32Of(b, 4, s.number);
    Get32Of(b, 8, s.ack);
  }

  // ---- the connection ----

  /** The segment `send_segment` makes of the connection's state. */
  function Make(c: Conn, flags: byte, data: seq<byte>): (s: Segment)
    ensures |s.data| <= MAX_SEGMENT - 20
  {
    Segment(c.localPort, c.remotePort, c.txSeq, c.rxSeq, flags, data[..Min(|data|, MAX_SEGMENT - 20)])
  }

  /** The data part of `tcp_input`. */
  function TakeData(c: Conn, s: Segment): (r: (Conn, seq<Segment>)) {
    if s.data == [] then (c, [])
    else
      var c0 := if c.rxSeq == 0 then c.(rxSeq := s.number) else c;
      if s.number != c0.rxSeq then (c0, [])
      else
        var copy := Min(|s.data|, Max(0, RX_CAP - |c0.rx|));
        var c1 := c0.(rx := c0.rx + s.data[..copy], rxSeq := (c0.rxSeq + copy) % TWO32, error := c0.error || copy < |s.data|);
        (c1, [Make(c1, ACK, [])])
  }

  /** The FIN part. */
  function TakeFin(c: Conn, s: Segment): (r: (Conn, seq<Segment>)) {
    if !Has(s.flags, FIN) then (c, [])
    else
      var c1 := c.(rxSeq := (c.rxSeq + 1) % TWO32);
      (c1.(txSeq := (c1.txSeq + 1) % TWO32, closed := true), [Make(c1, ACK, []), Make(c1, FIN + ACK, [])])
  }

  /** `tcp_input`: the connection afterwards and the segments sent in answer. */
  function Input(c: Conn, srcIp: U32, s: Segment): (r: (Conn, seq<Segment>)) {
    if srcIp != c.remoteIp || s.srcPort != c.remotePort || s.dstPort != c.localPort then (c, [])
    else if Has(s.flags, RST) then (c.(closed := true, error := true), [])
    else if Has(s.flags, SYN) && Has(s.flags, ACK) then
      var c1 := c.(rxSeq := (s.number + 1) % TWO32, txSeq := s.ack);
      (c1.(established := true), [Make(c1, ACK, [])])
    else if Has(s.flags, ACK) then
      var (c1, a) := TakeData(c, s);
      var (c2, b) := TakeFin(c1, s);
      (c2, a + b)
    else (c, [])
  }

  /** One round of `tcp_send`. */
  function SendChunk(c: Conn, data: seq<byte>): (r: (Conn, Segment))
    requires |data| <= CHUNK
  {
    (c.(txSeq := (c.txSeq + |data|) % TWO32), Make(c, PSH + ACK, data))
  }

  // ---- two ends and a network ----

  /** A sender with `tcp_send`, a receiver with `tcp_input`, every segment that was ever put
      on the network, and the bytes given to the one and drained from the other. */
  datatype World = World(isn: U32, sender: Conn, receiver: Conn, shaken: bool, given: seq<byte>, emitted: nat,
                         wire: seq<Segment>, acks: seq<Segment>, drained: seq<byte>)

  /** Handshake: the SYN-ACK arrives. Give: `tcp_send` is called. Emit: it sends its next
      chunk. Deliver: some data segment ever sent arrives, again or out of order or for the
      first time; one never delivered is lost. DeliverAck: the same towards the sender.
      Drain: the receiver's buffer is taken whole. */
  datatype Event = Handshake | Give(data: seq<byte>) | Emit | Deliver(i: nat) | DeliverAck(i: nat) | Drain

  function SynAck(w: World): Segment {
    Segment(w.sender.localPort, w.sender.remotePort, (w.isn + TWO32 - 1) % TWO32, w.receiver.txSeq, SYN + ACK, [])
  }

  function Step(w: World, e: Event): World {
    match e
    case Handshake =>
      if w.shaken then w
      else var (c, a) := Input(w.receiver, w.receiver.remoteIp, SynAck(w)); w.(receiver := c, acks := w.acks + a, shaken := true)
    case Give(data) =>
      if w.emitted < |w.given| then w else w.(given := w.given + data)
    case Emit =>
      if !w.shaken || w.emitted >= |w.given| || !w.sender.established || w.sender.closed then w
      else
        var chunk := w.given[w.emitted..Min(|w.given|, w.emitted + CHUNK)];
        var (c, s) := SendChunk(w.sender, chunk);
        w.(sender := c, emitted := w.emitted + |chunk|, wire := w.wire + [s])
    case Deliver(i) =>
      if i >= |w.wire| then w
      else var (c, a) := Input(w.receiver, w.receiver.remoteIp, w.wire[i]); w.(receiver := c, acks := w.acks + a)
    case DeliverAck(i) =>
      if i >= |w.acks| then w else w.(sender := Input(w.sender, w.sender.remoteIp, w.acks[i]).0)
    case Drain =>
      w.(drained := w.drained + w.receiver.rx, receiver := w.receiver.(rx := []))
  }

  function Run(w: World, es: seq<Event>): World
    decreases |es|
  {
    if es == [] then w else Run(Step(w, es[0]), es[1..])
  }

  /** Before the SYN-ACK: the receiver has called `tcp_connect`, nothing is under way. */
  predicate Start(w: World) {
    && w.isn > 0 && w.sender.txSeq == w.isn && w.receiver.rxSeq == 0 && w.receiver.rx == []
    && w.sender.localPort == w.receiver.remotePort && w.sender.remotePort == w.receiver.localPort
    && !w.shaken && w.given == [] && w.emitted == 0 && w.wire == [] && w.acks == [] && w.drained == []
  }

  // ---- the stream invariant ----

  /** A segment that carries a stretch of the stream under its right number. */
  predicate Carries(w: World, s: Segment) {
    && s.srcPort == w.sender.localPort && s.dstPort == w.sender.remotePort && s.flags == PSH + ACK
    && w.isn <= s.number && 0 < |s.data| && s.number - w.isn + |s.data| <= w.emitted <= |w.given|
    && w.given[s.number - w.isn..s.number - w.isn + |s.data|] == s.data
  }

  /** A bare acknowledgement. */
  predicate Bare(s: Segment) { s.flags == ACK && s.data == [] }

  function Received(w: World): seq<byte> { w.drained + w.receiver.rx }

  ghost predicate Inv(w: World) {
    && w.isn > 0 && w.isn + |w.given| < TWO32 && w.emitted <= |w.given|
    && w.sender.txSeq == w.isn + w.emitted
    && w.sender.localPort == w.receiver.remotePort && w.sender.remotePort == w.receiver.localPort
    && (!w.shaken ==> w.wire == [] && w.emitted == 0)
    && (forall k :: 0 <= k < |w.wire| ==> Carries(w, w.wire[k]))
    && (forall k :: 0 <= k < |w.acks| ==> Bare(w.acks[k]))
    && Received(w) <= w.given && |Received(w)| <= w.emitted && |w.receiver.rx| <= RX_CAP
    && w.receiver.rxSeq == if w.shaken then w.isn + |Received(w)| else 0
  }

  lemma {:induction false} StartInv(w: World)
    requires Start(w)
    ensures Inv(w)
  {
  }

  /** What the flags of the segments of a run say. */
  lemma {:induction false} PlainFlags()
    ensures !Has(PSH + ACK, RST) && !Has(PSH + ACK, SYN) && Has(PSH + ACK, ACK) && !Has(PSH + ACK, FIN)
    ensures !Has(ACK, RST) && !Has(ACK, SYN) && Has(ACK, ACK) && !Has(ACK, FIN)
    ensures Has(SYN + ACK, SYN) && Has(SYN + ACK, ACK) && !Has(SYN + ACK, RST)
  {
  }

  /** A segment with PSH and ACK, or ACK alone, goes to the data part. */
  lemma {:induction false} InputData(c: Conn, s: Segment)
    requires s.srcPort == c.remotePort && s.dstPort == c.localPort && (s.flags == PSH + ACK || s.flags == ACK)
    ensures Input(c, c.remoteIp, s) == TakeData(c, s)
  {
    hide Has, TakeData;
    PlainFlags();
    var (c1, a) := TakeData(c, s);
    assert a + [] == a;
  }

  lemma {:induction false} InputBare(c: Conn, s: Segment)
    requires Bare(s)
    ensures Input(c, c.remoteIp, s).0 == c
  {
    hide Has;
    PlainFlags();
  }

  lemma {:induction false} InputSynAck(c: Conn, s: Segment)
    requires s.srcPort == c.remotePort && s.dstPort == c.localPort && s.flags == SYN + ACK
    ensures var c1 := c.(rxSeq := (s.number + 1) % TWO32, txSeq := s.ack);
            Input(c, c.remoteIp, s) == (c1.(established := true), [Make(c1, ACK, [])])
  {
    hide Has;
    PlainFlags();
  }

  /** The data part on the next stretch of a stream: as much of it as fits is appended. */
  lemma {:induction false} TakeNext(c: Conn, s: Segment)
    requires s.data != [] && 0 < c.rxSeq && s.number == c.rxSeq && |c.rx| <= RX_CAP && c.rxSeq + |s.data| < TWO32
    ensures var copy := Min(|s.data|, RX_CAP - |c.rx|);
            var (c1, a) := TakeData(c, s);
            && c1 == c.(rx := c.rx + s.data[..copy], rxSeq := c.rxSeq + copy, error := c1.error)
            && |a| == 1 && Bare(a[0])
  {
  }

  lemma {:induction false} TakeNone(c: Conn, s: Segment)
    requires 0 < c.rxSeq && s.number != c.rxSeq
    ensures TakeData(c, s) == (c, [])
  {
  }

  /** The stream as received grows along the stream as given. */
  lemma {:induction false} PrefixGrows(given: seq<byte>, got: seq<byte>, data: seq<byte>, copy: nat)
    requires got <= given && copy <= |data| && |got| + |data| <= |given| && given[|got|..|got| + |data|] == data
    ensures got + data[..copy] <= given && |got + data[..copy]| == |got| + copy
  {
    assert data[..copy] == given[|got|..|got| + copy];
    assert given[..|got|] + given[|got|..|got| + copy] == given[..|got| + copy];
  }

  /** The heart of it: a data segment that arrives, whichever it is and however late, leaves
      what was received a prefix of what was given. */
  lemma {:induction false} DeliverInv(w: World, i: nat)
    requires Inv(w) && i < |w.wire|
    ensures Inv(Step(w, Deliver(i)))
  {
    hide TakeData, Has, Input;
    var s := w.wire[i];
    assert Carries(w, s);
    InputData(w.receiver, s);
    var r := Step(w, Deliver(i));
    if s.number == w.receiver.rxSeq {
      var copy := Min(|s.data|, RX_CAP - |w.receiver.rx|);
      TakeNext(w.receiver, s);
      PrefixGrows(w.given, Received(w), s.data, copy);
      assert Received(r) == Received(w) + s.data[..copy];
    } else {
      TakeNone(w.receiver, s);
    }
    forall k | 0 <= k < |r.wire| ensures Carries(r, r.wire[k]) { assert Carries(w, w.wire[k]); }
  }

  lemma {:induction false} EmitInv(w: World)
    requires Inv(w)
    ensures Inv(Step(w, Emit))
  {
    hide Input;
    var r := Step(w, Emit);
    if w.shaken && w.emitted < |w.given| && w.sender.established && !w.sender.closed {
      var chunk := w.given[w.emitted..Min(|w.given|, w.emitted + CHUNK)];
      assert chunk[..|chunk|] == chunk;
      forall k | 0 <= k < |r.wire| ensures Carries(r, r.wire[k]) {
        if k < |w.wire| { assert Carries(w, w.wire[k]); }
      }
    }
  }

  lemma {:induction false} HandshakeInv(w: World)
    requires Inv(w)
    ensures Inv(Step(w, Handshake))
  {
    hide Input, Carries;
    if !w.shaken {
      InputSynAck(w.receiver, SynAck(w));
      OneBack(w.isn);
    }
  }

  lemma {:induction false} OneBack(n: U32)
    requires n > 0
    ensures ((n + TWO32 - 1) % TWO32 + 1) % TWO32 == n
  {
  }

  lemma {:induction false} GiveInv(w: World, data: seq<byte>)
    requires Inv(w) && w.isn + |w.given| + |data| < TWO32
    ensures Inv(Step(w, Give(data)))
  {
    var r := Step(w, Give(data));
    forall k | 0 <= k < |r.wire| ensures Carries(r, r.wire[k]) { assert Carries(w, w.wire[k]); }
  }

  lemma {:induction false} AckInv(w: World, i: nat)
    requires Inv(w)
    ensures Inv(Step(w, DeliverAck(i)))
  {
    hide Input, Carries;
    if i < |w.acks| { InputBare(w.sender, w.acks[i]); }
  }

  lemma {:induction false} DrainInv(w: World)
    requires Inv(w)
    ensures Inv(Step(w, Drain))
  {
    var r := Step(w, Drain);
    assert Received(r) == Received(w);
    forall k | 0 <= k < |r.wire| ensures Carries(r, r.wire[k]) { assert Carries(w, w.wire[k]); }
  }

  lemma {:induction false} OtherInv(w: World, e: Event)
    requires Inv(w) && !e.Deliver? && !e.Emit? && (e.Give? ==> w.isn + |w.given| + |e.data| < TWO32)
    ensures Inv(Step(w, e))
  {
    hide Inv, Step;
    match e
    case Handshake => HandshakeInv(w);
    case Give(data) => GiveInv(w, data);
    case DeliverAck(i) => AckInv(w, i);
    case Drain => DrainInv(w);
  }

  /** Bytes given to `tcp_send` over a run, at most. */
  function GivenBy(es: seq<Event>): nat {
    if es == [] then 0 else (if es[0].Give? then |es[0].data| else 0) + GivenBy(es[1..])
  }

  lemma {:induction false} RunInv(w: World, es: seq<Event>)
    requires Inv(w) && w.isn + |w.given| + GivenBy(es) < TWO32
    ensures Inv(Run(w, es))
    decreases |es|
  {
    hide Inv, Step;
    if es != [] {
      var e := es[0];
      GivenGrows(w, e);
      if e.Deliver? && e.i < |w.wire| { DeliverInv(w, e.i); }
      else if e.Deliver? { Undelivered(w, e.i); }
      else if e.Emit? { EmitInv(w); }
      else { OtherInv(w, e); }
      RunInv(Step(w, e), es[1..]);
    }
  }

  lemma {:induction false} GivenGrows(w: World, e: Event)
    ensures |Step(w, e).given| <= |w.given| + (if e.Give? then |e.data| else 0) && Step(w, e).isn == w.isn
  {
  }

  lemma {:induction false} Undelivered(w: World, i: nat)
    requires i >= |w.wire|
    ensures Step(w, Deliver(i)) == w
  {
  }

  /** Stream safety: with one SYN-ACK, no FIN, drains that take the buffer whole, and a
      stream whose numbers stay clear of 0, then in whatever order, how often or how seldom
      segments arrive, what has been drained is a prefix of what was given to `tcp_send`. */
  lemma {:induction false} StreamSafe(w: World, es: seq<Event>)
    requires Start(w) && w.isn + GivenBy(es) < TWO32
    ensures Run(w, es).drained <= Run(w, es).given
  {
    hide Run;
    StartInv(w);
    RunInv(w, es);
    var r := Run(w, es);
    assert r.drained <= Received(r);
  }

  // ---- where the conditions come from ----

  /** A data segment is taken exactly when its number is the one expected, or when none is
      expected yet because the expected number is 0. */
  lemma {:induction false} AcceptedIff(c: Conn, s: Segment)
    requires s.srcPort == c.remotePort && s.dstPort == c.localPort && s.flags == PSH + ACK && s.data != [] && |c.rx| < RX_CAP
    ensures Input(c, c.remoteIp, s).0.rx != c.rx <==> s.number == c.rxSeq || c.rxSeq == 0
  {
    assert !Has(s.flags, RST) && !Has(s.flags, SYN) && Has(s.flags, ACK) && !Has(s.flags, FIN);
  }

  /** Why one SYN-ACK: a second one winds the expected number back, and a segment that was
      taken before is taken again. */
  lemma {:induction false} SecondSynAckRepeats(c: Conn, syn: Segment, s: Segment)
    requires syn.srcPort == s.srcPort == c.remotePort && syn.dstPort == s.dstPort == c.localPort
    requires syn.flags == SYN + ACK && s.flags == PSH + ACK && s.number == (syn.number + 1) % TWO32
    requires 2 * |s.data| <= RX_CAP && c.rx == []
    ensures var c1 := Input(Input(c, c.remoteIp, syn).0, c.remoteIp, s).0;
            var c2 := Input(Input(c1, c.remoteIp, syn).0, c.remoteIp, s).0;
            c1.rx == s.data && c2.rx == s.data + s.data
  {
    hide Input;
    InputSynAck(c, syn);
    var b := Input(c, c.remoteIp, syn).0;
    InputData(b, s);
    var c1 := Input(b, c.remoteIp, s).0;
    InputSynAck(c1, syn);
    InputData(Input(c1, c.remoteIp, syn).0, s);
  }
}
