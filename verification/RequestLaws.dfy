/**
 What a request hands back for a response that comes in one piece, whatever its header says and
 however little the caller has room for, and for one that ends with the connection.
 */
module RequestLaws {
  import opened Common
  import opened Http
  import opened HeaderLaws

  /** A header ends with its first blank line. */
  predicate IsHeader(h: seq<byte>) { 4 <= |h| && FindEnd(h, 0) == |h| - 4 }

  /** Of what arrives 4096 bytes fit the buffer, those already there included; the rest is lost
      and the connection in error. */
  lemma {:induction false} ArriveIs(s: State, a: Arrival)
    requires |s.rx| <= 4096
    ensures var r := Arrive(s, a);
            && r == s.(rx := r.rx, error := r.error, closed := r.closed)
            && r.rx == (if |s.rx + a.data| <= 4096 then s.rx + a.data else (s.rx + a.data)[..4096])
            && (r.error <==> s.error || |s.rx| + |a.data| > 4096) && (r.closed <==> s.closed || a.fin)
  {
    if |s.rx + a.data| > 4096 { assert (s.rx + a.data)[..4096] == s.rx + a.data[..4096 - |s.rx|]; }
  }

  /** The header comes off the front. */
  lemma {:induction false} HeaderOff(s: State, h: seq<byte>, b: seq<byte>)
    requires s == Begin(s.rx).(closed := s.closed) && s.rx == h + b && IsHeader(h)
    ensures TakeHeader(s) == s.(headersDone := true, sawClose := HasClose(h), length := ContentLength(h), rx := b)
  {
    hide FindEnd, HasClose, ContentLength;
    EndPrefix(h + b, h);
    assert (h + b)[..|h|] == h && (h + b)[|h|..] == b;
  }

  /** One round when the body is being read: what is copied, and when it ends. */
  lemma {:induction false} BodyRound(s: State, cap: nat)
    requires s.headersDone && !s.complete && !s.full && |s.out| < cap
    requires s.length.Some? ==> |s.out| <= s.length.value
    ensures var t := TakeBody(s, cap);
            var room := cap - 1 - |s.out|;
            var want := if s.length.Some? then s.length.value - |s.out| else |s.rx|;
            if |s.rx| <= room && |s.rx| <= want then t == s.(out := s.out + s.rx, rx := [])
            else if want <= room then t == s.(out := s.out + s.rx[..want], rx := s.rx[want..], complete := true)
            else t == s.(out := s.out + s.rx[..room], rx := [], full := true)
  {
    hide CopyBody;
    CopyIs(s.out, s.length, s.rx, cap);
  }

  /** How a response that came whole is answered, or None when more must come. */
  function Answered(h: seq<byte>, b: seq<byte>, fin: bool, cap: nat): Option<Reply>
    requires cap > 0
  {
    var n := ContentLength(h);
    var kept := !HasClose(h) && !fin;
    if n.Some? && n.value <= |b| && n.value < cap then Some(Reply(Some(b[..n.value]), if kept then b[n.value..] else [], kept))
    else if |b| >= cap then Some(Reply(Some(b[..cap - 1]), [], kept))
    else if fin then Some(Reply(Some(b), [], false))
    else None
  }

  /** The state after a round that brought a header and bytes behind it. */
  lemma {:induction false} FirstRound(h: seq<byte>, b: seq<byte>, fin: bool, cap: nat)
    requires IsHeader(h) && |h| + |b| <= 4096 && cap > 0
    ensures var t := Poll(Begin([]), Arrival(h + b, fin), cap);
            var n := ContentLength(h);
            && t.headersDone && !t.error && t.closed == fin && t.length == n
            && (t.sawClose <==> HasClose(h) || (fin && !t.full && !t.complete))
            && (if n.Some? && n.value <= |b| && n.value < cap
                then t.complete && !t.full && t.out == b[..n.value] && t.rx == b[n.value..]
                else if |b| >= cap then t.full && t.out == b[..cap - 1] && t.rx == []
                else !t.full && !t.complete && t.out == b && t.rx == [])
  {
    hide FindEnd, HasClose, ContentLength, CopyBody, TakeHeader, TakeBody, Arrive;
    var s := Begin([]).(rx := h + b, closed := fin);
    ArriveIs(Begin([]), Arrival(h + b, fin));
    assert [] + (h + b) == h + b;
    assert Arrive(Begin([]), Arrival(h + b, fin)) == s;
    HeaderOff(s, h, b);
    var u := TakeHeader(s);
    BodyRound(u, cap);
    assert [] + b == b;
    forall k: nat | k <= |b| ensures [] + b[..k] == b[..k] {}
    assert b[..|b|] == b && b[|b|..] == [];
  }

  /** A response that arrives in one piece is answered from its first round: with as many bytes
      as its length says, when they are there and the caller has room; cut one short of the
      caller's room, when there are more; with all of them, when the connection ends. What is
      behind the body stays in the buffer of a connection that is kept, and it is kept unless
      the header or the other end closes it. */
  lemma {:induction false} OneArrival(h: seq<byte>, b: seq<byte>, fin: bool, later: seq<Arrival>, cap: nat)
    requires IsHeader(h) && |h| + |b| <= 4096 && cap > 0 && Answered(h, b, fin, cap).Some?
    ensures Request([], [Arrival(h + b, fin)] + later, cap) == (Answered(h, b, fin, cap).value, later)
  {
    hide HasClose, ContentLength, Poll, IsHeader;
    FirstRound(h, b, fin, cap);
    var a := [Arrival(h + b, fin)] + later;
    assert a[1..] == later;
    LoopEnds(Begin([]), a, MAX_POLLS, cap);
    var t := Poll(Begin([]), a[0], cap);
    assert Loop(Begin([]), a, MAX_POLLS, cap) == (t, later);
  }

  lemma {:induction false} LoopEnds(s: State, arrivals: seq<Arrival>, polls: nat, cap: nat)
    requires polls > 0 && !s.error && !s.complete && !s.full && arrivals != []
    ensures var t := Poll(s, arrivals[0], cap);
            t.error || t.complete || t.full || t.closed ==> Loop(s, arrivals, polls, cap) == (t, arrivals[1..])
  {
    hide Poll;
    assert Loop(s, arrivals, polls, cap)
        == (var t := Poll(s, arrivals[0], cap);
            if t.closed && !t.complete && !t.full then (t, arrivals[1..]) else Loop(t, arrivals[1..], polls - 1, cap));
    var t := Poll(s, arrivals[0], cap);
    if t.error || t.complete || t.full { assert Loop(t, arrivals[1..], polls - 1, cap) == (t, arrivals[1..]); }
  }

  /** A header that does not end in the 4096 bytes of the buffer, or before the connection does,
      gives no answer, and the connection is not kept. */
  lemma {:induction false} NoHeader(d: seq<byte>, fin: bool, later: seq<Arrival>, cap: nat)
    requires d != [] && (|d| >= 4096 || fin)
    requires var seen := if |d| <= 4096 then d else d[..4096]; forall j :: 0 <= j < |seen| ==> !EndAt(seen, j)
    ensures Request([], [Arrival(d, fin)] + later, cap) == (Reply(None, [], false), later)
  {
    hide Arrive, Poll, Finish;
    var a := [Arrival(d, fin)] + later;
    assert a[1..] == later;
    EndlessRound(d, fin, cap);
    LoopEnds(Begin([]), a, MAX_POLLS, cap);
    var t := Poll(Begin([]), a[0], cap);
    assert Loop(Begin([]), a, MAX_POLLS, cap) == (t, later);
    UnansweredEnd(t);
  }

  lemma {:induction false} EndlessRound(d: seq<byte>, fin: bool, cap: nat)
    requires d != [] && (|d| >= 4096 || fin)
    requires var seen := if |d| <= 4096 then d else d[..4096]; forall j :: 0 <= j < |seen| ==> !EndAt(seen, j)
    ensures var t := Poll(Begin([]), Arrival(d, fin), cap);
            !t.headersDone && !t.complete && !t.full && (t.error || t.closed)
  {
    hide EndAt, Arrive, HasClose, ContentLength;
    var seen := if |d| <= 4096 then d else d[..4096];
    ArriveIs(Begin([]), Arrival(d, fin));
    assert [] + d == d;
    assert FindEnd(seen, 0) == |seen|;
  }

  lemma {:induction false} UnansweredEnd(t: State)
    requires !t.headersDone && !t.complete && !t.full && (t.error || t.closed)
    ensures Finish(t) == Reply(None, [], false)
  {
  }

  // ---- a body that ends with the connection ----

  /** A round in the middle of a body without a length. */
  lemma {:induction false} OpenRound(s: State, a: Arrival, cap: nat)
    requires s.headersDone && s.length == None && !s.complete && !s.full && !s.error && !s.closed && s.rx == []
    requires |a.data| <= 4096 && |s.out| + |a.data| < cap
    ensures Poll(s, a, cap) == s.(out := s.out + a.data, closed := a.fin, sawClose := s.sawClose || a.fin)
  {
    hide CopyBody, Arrive, FindEnd, HasClose, ContentLength, TakeBody;
    ArriveIs(s, a);
    assert [] + a.data == a.data;
    BodyRound(Arrive(s, a), cap);
  }

  lemma {:induction false} OpenLoop(s: State, arrivals: seq<Arrival>, later: seq<Arrival>, polls: nat, cap: nat)
    requires s.headersDone && s.length == None && !s.complete && !s.full && !s.error && !s.closed && s.rx == []
    requires arrivals != [] && |arrivals| <= polls && |s.out| + |Flat(arrivals)| < cap
    requires forall i :: 0 <= i < |arrivals| ==> |arrivals[i].data| <= 4096 && (arrivals[i].fin <==> i == |arrivals| - 1)
    ensures Loop(s, arrivals + later, polls, cap) == (s.(out := s.out + Flat(arrivals), closed := true, sawClose := true), later)
    decreases |arrivals|
  {
    hide Poll;
    var a := arrivals[0];
    OpenRound(s, a, cap);
    assert (arrivals + later)[1..] == arrivals[1..] + later;
    var t := Poll(s, a, cap);
    if |arrivals| == 1 {
      LoopEnds(s, arrivals + later, polls, cap);
      assert arrivals[1..] + later == later && Flat(arrivals[1..]) == [] && a.data + [] == a.data;
    } else {
      OpenLoop(t, arrivals[1..], later, polls - 1, cap);
      assert s.out + a.data + Flat(arrivals[1..]) == s.out + Flat(arrivals);
    }
  }

  /** A response without a length whose header came with the first arrival: its body is all that
      comes until the other end closes, however it is cut, and the connection is not kept. */
  lemma {:induction false} UntilClose(h: seq<byte>, b: seq<byte>, arrivals: seq<Arrival>, later: seq<Arrival>, cap: nat)
    requires IsHeader(h) && ContentLength(h) == None && |h| + |b| <= 4096 && |b| + |Flat(arrivals)| < cap
    requires arrivals != [] && |arrivals| < 300000
    requires forall i :: 0 <= i < |arrivals| ==> |arrivals[i].data| <= 4096 && (arrivals[i].fin <==> i == |arrivals| - 1)
    ensures Request([], [Arrival(h + b, false)] + arrivals + later, cap) == (Reply(Some(b + Flat(arrivals)), [], false), later)
  {
    hide HasClose, ContentLength, Poll, IsHeader, Flat;
    FirstRound(h, b, false, cap);
    var a := [Arrival(h + b, false)] + arrivals + later;
    assert a[0] == Arrival(h + b, false) && a[1..] == arrivals + later;
    var t := Poll(Begin([]), a[0], cap);
    OpenLoop(t, arrivals, later, MAX_POLLS - 1, cap);
    assert Loop(Begin([]), a, MAX_POLLS, cap) == Loop(t, a[1..], MAX_POLLS - 1, cap);
  }

  // ---- when arrivals fit ----

  /** Arrivals of at most m bytes, for a header of at most 4097 - m, fit the buffer until they
      have brought the response, whatever comes later. */
  lemma {:induction false} FitsIn(r: Response, have: nat, held: nat, some: seq<Arrival>, later: seq<Arrival>, m: nat)
    requires |r.header| + m <= 4097 && held < |r.header|
    requires forall i :: 0 <= i < |some| ==> |some[i].data| <= m
    requires some != [] && have + |Flat(some)| >= |r.header| + |r.body|
    ensures Fits(r, have, held, some + later)
    decreases |some|
  {
    var now := have + |some[0].data|;
    assert (some + later)[0] == some[0] && (some + later)[1..] == some[1..] + later;
    if now < |r.header| + |r.body| {
      assert |Flat(some)| == |some[0].data| + |Flat(some[1..])|;
      FitsIn(r, now, if now < |r.header| then now else 0, some[1..], later, m);
    }
  }

  /** A response already there in full needs nothing. */
  lemma {:induction false} FitsHere(r: Response, have: nat, held: nat)
    requires held <= 4096
    ensures Fits(r, have, held, []) <==> have >= |r.header| + |r.body|
  {
  }
}
