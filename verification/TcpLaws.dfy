/**
 What a connection answers: the number every acknowledgement carries, the flags of every
 answer, and what the acknowledgements of a whole run say about the bytes received.
 */
module TcpLaws {
  import opened Common
  import opened Checksum
  import opened Tcp

  /** A segment for this connection. */
  predicate For(c: Conn, s: Segment) { s.srcPort == c.remotePort && s.dstPort == c.localPort }

  /** A bare answer on this connection that carries the given flags and numbers. */
  predicate Answers(a: Segment, c: Conn, flags: byte, number: nat, ack: nat) {
    && a.srcPort == c.localPort && a.dstPort == c.remotePort && a.flags == flags && a.data == []
    && a.number == number && a.ack == ack
  }

  /** A data segment that is the next in order, or the first ever, is taken as far as there is
      room, and what is acknowledged is the number behind the last byte taken. */
  lemma {:induction false} DataAnswered(c: Conn, s: Segment)
    requires For(c, s) && s.flags == PSH + ACK && s.data != [] && |c.rx| <= 4096 && (s.number == c.rxSeq || c.rxSeq == 0)
    ensures var (d, answers) := Input(c, c.remoteIp, s);
            var copy := Min(|s.data|, 4096 - |c.rx|);
            var next := (s.number + copy) % TWO32;
            && |answers| == 1 && Answers(answers[0], c, ACK, c.txSeq, next)
            && d == c.(rx := c.rx + s.data[..copy], rxSeq := next, error := c.error || copy < |s.data|)
  {
    hide Has;
    InputData(c, s);
  }

  /** Any other data segment changes nothing and is not answered. */
  lemma {:induction false} DataIgnored(c: Conn, s: Segment)
    requires s.flags == PSH + ACK && (!For(c, s) || (s.number != c.rxSeq && c.rxSeq != 0))
    ensures Input(c, c.remoteIp, s) == (c, [])
  {
    hide Has;
    if For(c, s) { InputData(c, s); }
  }

  /** A segment from another host does nothing; a reset closes the connection with an error
      and is not answered. */
  lemma {:induction false} ResetCloses(c: Conn, from: U32, s: Segment)
    ensures from != c.remoteIp ==> Input(c, from, s) == (c, [])
    ensures from == c.remoteIp && For(c, s) && Has(s.flags, RST) ==> Input(c, from, s) == (c.(closed := true, error := true), [])
  {
  }

  lemma {:induction false} FinFlags()
    ensures !Has(FIN + ACK, RST) && !Has(FIN + ACK, SYN) && Has(FIN + ACK, ACK) && Has(FIN + ACK, FIN)
  {
  }

  /** A FIN, with what data it carries in order, is answered last by an acknowledgement of one
      more than the last byte and then by the connection's own FIN, and closes it. */
  lemma {:induction false} FinAnswered(c: Conn, s: Segment)
    requires For(c, s) && s.flags == FIN + ACK && |c.rx| <= 4096 && s.number == c.rxSeq && c.rxSeq != 0
    ensures var (d, answers) := Input(c, c.remoteIp, s);
            var copy := Min(|s.data|, 4096 - |c.rx|);
            var next := (s.number + copy + 1) % TWO32;
            && |answers| == (if s.data == [] then 2 else 3)
            && Answers(answers[|answers| - 2], c, ACK, c.txSeq, next)
            && Answers(answers[|answers| - 1], c, FIN + ACK, c.txSeq, next)
            && (s.data != [] ==> Answers(answers[0], c, ACK, c.txSeq, (s.number + copy) % TWO32))
            && d == c.(rx := c.rx + s.data[..copy], rxSeq := next, txSeq := (c.txSeq + 1) % TWO32, closed := true,
                       error := c.error || copy < |s.data|)
  {
    FinFlags();
    hide Has;
    var copy := Min(|s.data|, 4096 - |c.rx|);
    OneMore(s.number + copy);
    if s.data == [] {
      assert c.rx + s.data[..copy] == c.rx;
      SmallNumber(s.number);
    }
  }

  lemma {:induction false} OneMore(n: nat)
    ensures (n % TWO32 + 1) % TWO32 == (n + 1) % TWO32
  {
  }

  lemma {:induction false} SmallNumber(n: U32)
    ensures n % TWO32 == n
  {
  }

  /** The acknowledgement of the peer's SYN-ACK: one more than its number, on the numbers it
      asked for. */
  lemma {:induction false} SynAckAnswered(c: Conn, s: Segment)
    requires For(c, s) && s.flags == SYN + ACK
    ensures var (d, answers) := Input(c, c.remoteIp, s);
            && |answers| == 1 && Answers(answers[0], c, ACK, s.ack, (s.number + 1) % TWO32)
            && d == c.(rxSeq := (s.number + 1) % TWO32, txSeq := s.ack, established := true)
  {
    InputSynAck(c, s);
  }

  // ---- over a run ----

  /** Acknowledgements never fall, lie between the first number and what has been sent, and
      the newest is the number the receiver expects. */
  ghost predicate AcksOk(w: World) {
    && (w.shaken <==> w.acks != [])
    && (w.acks != [] ==> w.acks[|w.acks| - 1].ack == w.receiver.rxSeq)
    && (forall i, j :: 0 <= i <= j < |w.acks| ==> w.isn <= w.acks[i].ack <= w.acks[j].ack <= w.isn + |Received(w)|)
  }

  lemma {:induction false} NewestBounds(w: World, r: World, a: Segment)
    requires AcksOk(w) && r.acks == w.acks + [a] && r.shaken && r.isn == w.isn && a.ack == r.receiver.rxSeq
    requires |Received(r)| >= |Received(w)| && a.ack == w.isn + |Received(r)|
    ensures AcksOk(r)
  {
  }

  /** Every answer to a delivered segment acknowledges exactly what has been received by then. */
  lemma {:induction false} DeliverAcks(w: World, i: nat)
    requires Inv(w) && AcksOk(w) && i < |w.wire|
    ensures var r := Step(w, Deliver(i));
            && AcksOk(r)
            && (r.acks == w.acks || (|r.acks| == |w.acks| + 1 && r.acks[..|w.acks|] == w.acks
                                     && r.acks[|w.acks|].ack == w.isn + |Received(r)|))
  {
    hide Input, Has;
    var s := w.wire[i];
    assert Carries(w, s);
    var r := Step(w, Deliver(i));
    DeliverInv(w, i);
    if s.number == w.receiver.rxSeq {
      DataAnswered(w.receiver, s);
      var a := Input(w.receiver, w.receiver.remoteIp, s).1[0];
      assert r.acks == w.acks + [a];
      NewestBounds(w, r, a);
    } else {
      DataIgnored(w.receiver, s);
      assert r.acks == w.acks;
    }
  }

  lemma {:induction false} HandshakeAcks(w: World)
    requires Inv(w) && AcksOk(w)
    ensures AcksOk(Step(w, Handshake))
  {
    hide Input, Carries, Bare;
    if !w.shaken {
      SynAckAnswered(w.receiver, SynAck(w));
      OneBack(w.isn);
      var a := Input(w.receiver, w.receiver.remoteIp, SynAck(w)).1[0];
      assert Step(w, Handshake).acks == [a];
    }
  }

  lemma {:induction false} SameAcks(w: World, r: World)
    requires AcksOk(w) && r.shaken == w.shaken && r.acks == w.acks && r.isn == w.isn
    requires r.receiver.rxSeq == w.receiver.rxSeq && |Received(r)| == |Received(w)|
    ensures AcksOk(r)
  {
  }

  lemma {:induction false} StepAcks(w: World, e: Event)
    requires Inv(w) && AcksOk(w)
    ensures AcksOk(Step(w, e))
  {
    hide Input, AcksOk, Inv;
    match e
    case Handshake => HandshakeAcks(w);
    case Deliver(i) => if i < |w.wire| { DeliverAcks(w, i); }
    case _ => SameAcks(w, Step(w, e));
  }

  /** In every run: what is acknowledged never exceeds what was sent, the newest
      acknowledgement is the number behind the bytes received, and nothing on the network
      carries a FIN. */
  lemma {:induction false} RunAcks(w: World, es: seq<Event>)
    requires Inv(w) && AcksOk(w) && w.isn + |w.given| + GivenBy(es) < TWO32
    ensures var r := Run(w, es);
            && AcksOk(r)
            && (r.shaken ==> r.acks[|r.acks| - 1].ack == r.isn + |Received(r)|)
            && (forall k :: 0 <= k < |r.acks| ==> r.acks[k].ack <= r.isn + r.emitted)
            && (forall k :: 0 <= k < |r.acks| ==> !Has(r.acks[k].flags, FIN))
            && (forall k :: 0 <= k < |r.wire| ==> !Has(r.wire[k].flags, FIN))
    decreases |es|
  {
    hide Step, Has;
    if es == [] {
      PlainFlags();
      forall k | 0 <= k < |w.acks| ensures !Has(w.acks[k].flags, FIN) && w.acks[k].ack <= w.isn + w.emitted {
        assert Bare(w.acks[k]);
      }
      forall k | 0 <= k < |w.wire| ensures !Has(w.wire[k].flags, FIN) { assert Carries(w, w.wire[k]); }
    } else {
      var e := es[0];
      GivenGrows(w, e);
      StepInv(w, e);
      StepAcks(w, e);
      RunAcks(Step(w, e), es[1..]);
    }
  }

  lemma {:induction false} StepInv(w: World, e: Event)
    requires Inv(w) && w.isn + |w.given| + (if e.Give? then |e.data| else 0) < TWO32
    ensures Inv(Step(w, e))
  {
    hide Inv, Step;
    if e.Deliver? && e.i < |w.wire| { DeliverInv(w, e.i); }
    else if e.Deliver? { Undelivered(w, e.i); }
    else if e.Emit? { EmitInv(w); }
    else { OtherInv(w, e); }
  }

  lemma {:induction false} StartAcks(w: World)
    requires Start(w)
    ensures Inv(w) && AcksOk(w)
  {
    StartInv(w);
  }

  /** A segment carries at most 1480 bytes of what it is given, the first ones, and the state's
      ports and numbers. */
  lemma {:induction false} MakeCarries(c: Conn, flags: byte, data: seq<byte>)
    ensures var s := Make(c, flags, data);
            && s.srcPort == c.localPort && s.dstPort == c.remotePort && s.number == c.txSeq && s.ack == c.rxSeq && s.flags == flags
            && s.data <= data && (|data| <= 1480 ==> s.data == data) && (|data| > 1480 ==> |s.data| == 1480)
  {
    assert data[..|data|] == data;
  }

  /** `tcp_send` puts the stream on the network a thousand bytes at a time, each piece under
      the number of its first byte, pushed and acknowledging what has been received. */
  lemma {:induction false} EmitSends(w: World)
    requires Inv(w) && w.shaken && w.emitted < |w.given| && w.sender.established && !w.sender.closed
    ensures var r := Step(w, Emit);
            && |r.wire| == |w.wire| + 1 && r.wire[..|w.wire|] == w.wire
            && r.emitted == w.emitted + |r.wire[|w.wire|].data|
            && |r.wire[|w.wire|].data| == Min(1000, |w.given| - w.emitted)
            && r.wire[|w.wire|] == Segment(w.sender.localPort, w.sender.remotePort, w.isn + w.emitted, w.sender.rxSeq, 0x18,
                                           w.given[w.emitted..r.emitted])
            && r.sender.txSeq == w.isn + r.emitted
  {
    var chunk := w.given[w.emitted..Min(|w.given|, w.emitted + CHUNK)];
    assert chunk[..|chunk|] == chunk;
  }
}
