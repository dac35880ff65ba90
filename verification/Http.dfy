/**
 The receive loop of an HTTP request on a kept-alive connection: header end, Content-Length,
 and what stays in the buffer for the next request.
 */
module Http {
  import opened Common

  const RX_CAP: nat := 4096
  const MAX_POLLS: nat := 300000
  const WORD: nat := 0x1_0000_0000_0000_0000
  const CR: byte := 13
  const LF: byte := 10

  /** What one poll of the network brings. */
  datatype Arrival = Arrival(data: seq<byte>, fin: bool)

  /** The state of the receive loop. `out` is the body so far: the code's two counters of
      copied bytes always agree. */
  datatype State = State(rx: seq<byte>, error: bool, closed: bool, headersDone: bool, length: Option<nat>,
                         out: seq<byte>, sawClose: bool, complete: bool, full: bool)

  // ---- headers ----

  predicate EndAt(b: seq<byte>, j: nat) {
    j + 4 <= |b| && b[j] == CR && b[j + 1] == LF && b[j + 2] == CR && b[j + 3] == LF
  }

  /** First position from j on where a blank line ends the header, or the buffer's length. */
  function FindEnd(b: seq<byte>, j: nat): (r: nat)
    requires j <= |b|
    ensures j <= r <= |b|
    ensures forall k :: j <= k < r ==> !EndAt(b, k)
    ensures r < |b| ==> EndAt(b, r)
    decreases |b| - j
  {
    if j + 3 >= |b| then |b| else if EndAt(b, j) then j else FindEnd(b, j + 1)
  }

  function Lower(c: byte): (l: byte) { if 0x41 <= c <= 0x5A then c + 32 else c }

  /** b holds the given letters at i, in either case. */
  predicate LettersAt(b: seq<byte>, i: nat, name: seq<byte>) {
    i + |name| <= |b| && forall k :: 0 <= k < |name| ==> Lower(b[i + k]) == name[k]
  }

  /** "content", "length", "connection" and "close", in bytes. */
  const CONTENT: seq<byte> := [0x63, 0x6F, 0x6E, 0x74, 0x65, 0x6E, 0x74]
  const LENGTH: seq<byte> := [0x6C, 0x65, 0x6E, 0x67, 0x74, 0x68]
  const CONNECTION: seq<byte> := [0x63, 0x6F, 0x6E, 0x6E, 0x65, 0x63, 0x74, 0x69, 0x6F, 0x6E]
  const CLOSE: seq<byte> := [0x63, 0x6C, 0x6F, 0x73, 0x65]
  const COLON: byte := 0x3A
  const SPACE: byte := 0x20
  const TAB: byte := 9
  const DASH: byte := 0x2D

  predicate LengthFieldAt(b: seq<byte>, i: nat) {
    && i + 15 < |b| && LettersAt(b, i, CONTENT) && b[i + 7] == DASH && LettersAt(b, i + 8, LENGTH) && b[i + 14] == COLON
  }

  function SkipBlanks(b: seq<byte>, j: nat): (r: nat)
    requires j <= |b|
    ensures j <= r <= |b|
    decreases |b| - j
  {
    if j < |b| && (b[j] == SPACE || b[j] == TAB) then SkipBlanks(b, j + 1) else j
  }

  predicate IsDigit(c: byte) { 0x30 <= c <= 0x39 }

  function DigitValue(c: byte): (v: nat) {
    if IsDigit(c) then c - 0x30 else 0
  }

  /** The digit loop, in a 64-bit accumulator. */
  function Digits(b: seq<byte>, j: nat, val: nat): (r: nat)
    requires j <= |b|
    decreases |b| - j
  {
    if j < |b| && IsDigit(b[j]) then Digits(b, j + 1, (val * 10 + DigitValue(b[j])) % WORD) else val
  }

  /** `parse_content_length`, from position i on. */
  function LengthFrom(b: seq<byte>, i: nat): (r: Option<nat>)
    decreases |b| - i
  {
    if i + 15 >= |b| then None
    else if LengthFieldAt(b, i) && (var j := SkipBlanks(b, i + 15); j < |b| && IsDigit(b[j])) then
      Some(Digits(b, SkipBlanks(b, i + 15), 0))
    else LengthFrom(b, i + 1)
  }

  function ContentLength(b: seq<byte>): Option<nat> { LengthFrom(b, 0) }

  predicate CloseFieldAt(b: seq<byte>, i: nat) {
    && i + 11 < |b| && LettersAt(b, i, CONNECTION) && b[i + 10] == COLON && b[i + 11] == SPACE
    && var j := SkipBlanks(b, i + 12);
       j + 5 <= |b| && b[j..j + 5] == CLOSE
  }

  /** `header_has_close` */
  predicate HasClose(b: seq<byte>) { exists i :: 0 <= i < |b| && CloseFieldAt(b, i) }

  // ---- one poll ----

  datatype Copied = More(out: seq<byte>) | Complete(out: seq<byte>, rest: seq<byte>) | Full(out: seq<byte>)

  /** The body part of the inner loop. */
  function CopyBody(out: seq<byte>, length: Option<nat>, rx: seq<byte>, cap: nat): (r: Copied)
    decreases |rx|
  {
    if rx == [] then More(out)
    else if length.Some? && |out| >= length.value then Complete(out, rx)
    else if |out| + 1 >= cap then Full(out)
    else CopyBody(out + [rx[0]], length, rx[1..], cap)
  }

  /** Bytes that arrive go into what room there is; those that do not fit are an error. */
  function Arrive(s: State, a: Arrival): (r: State) {
    var room := Max(0, RX_CAP - |s.rx|);
    if |a.data| <= room then s.(rx := s.rx + a.data, closed := s.closed || a.fin)
    else s.(rx := s.rx + a.data[..room], error := true, closed := s.closed || a.fin)
  }

  /** The header part: nothing, or the header taken off the buffer. */
  function TakeHeader(s: State): (r: State) {
    if s.headersDone || s.rx == [] then s
    else
      var j := FindEnd(s.rx, 0);
      if j == |s.rx| then (if |s.rx| >= RX_CAP then s.(error := true) else s)
      else
        var h := s.rx[..j + 4];
        s.(headersDone := true, sawClose := s.sawClose || HasClose(h),
           length := (match ContentLength(h) case Some(n) => Some(n) case None => s.length), rx := s.rx[j + 4..])
  }

  function TakeBody(s: State, cap: nat): (r: State) {
    if !s.headersDone then s
    else
      match CopyBody(s.out, s.length, s.rx, cap)
      case More(out) => s.(out := out, rx := [])
      case Complete(out, rest) => s.(out := out, rx := rest, complete := true)
      case Full(out) => s.(out := out, rx := [], full := true)
  }

  /** One round of the receive loop. */
  function Poll(s: State, a: Arrival, cap: nat): (r: State) {
    var t := TakeBody(TakeHeader(Arrive(s, a)), cap);
    if t.full then t
    else if t.length.Some? && |t.out| >= t.length.value then t.(complete := true)
    else if t.closed then t.(sawClose := true)
    else t
  }

  /** The receive loop: its last state, and the arrivals still to come. */
  function Loop(s: State, arrivals: seq<Arrival>, polls: nat, cap: nat): (r: (State, seq<Arrival>))
    decreases polls
  {
    if polls == 0 || s.error || s.complete || s.full then (s, arrivals)
    else
      var a := if arrivals == [] then Arrival([], false) else arrivals[0];
      var rest := if arrivals == [] then [] else arrivals[1..];
      var t := Poll(s, a, cap);
      if t.closed && !t.complete && !t.full then (t, rest) else Loop(t, rest, polls - 1, cap)
  }

  /** What a request hands back: the body, or none, and the buffer it leaves; `kept` when
      the connection stays open. */
  datatype Reply = Reply(body: Option<seq<byte>>, rx: seq<byte>, kept: bool)

  function Begin(rx: seq<byte>): State { State(rx, false, false, false, None, [], false, false, false) }

  function Finish(s: State): (r: Reply) {
    if s.full then Reply(Some(s.out), [], !(s.sawClose || s.closed))
    else
      var kept := !(s.sawClose || s.closed || s.error);
      Reply(if s.headersDone then Some(s.out) else None, if s.complete && kept then s.rx else [], kept)
  }

  /** The receive part of `http_request`. */
  function Request(rx: seq<byte>, arrivals: seq<Arrival>, cap: nat): (r: (Reply, seq<Arrival>)) {
    var (s, rest) := Loop(Begin(rx), arrivals, MAX_POLLS, cap);
    (Finish(s), rest)
  }

  // ---- framing ----

  /** A response the framing relies on: a header with the length of the body and no request
      to close. */
  datatype Response = Response(header: seq<byte>, body: seq<byte>)

  predicate Framed(r: Response) {
    && 4 <= |r.header| <= RX_CAP && FindEnd(r.header, 0) == |r.header| - 4
    && ContentLength(r.header) == Some(|r.body|) && !HasClose(r.header)
  }

  function Flat(arrivals: seq<Arrival>): seq<byte> {
    if arrivals == [] then [] else arrivals[0].data + Flat(arrivals[1..])
  }

  predicate NoFin(arrivals: seq<Arrival>) { forall k :: 0 <= k < |arrivals| ==> !arrivals[k].fin }

  /** The loop's state after everything in `got` has arrived for the response. */
  predicate Tracks(s: State, r: Response, got: seq<byte>) {
    && !s.error && !s.closed && !s.sawClose && !s.full
    && if |got| < |r.header| then !s.headersDone && s.length == None && s.rx == got && s.out == [] && !s.complete
       else
         var n := Min(|r.body|, |got| - |r.header|);
         && s.headersDone && s.length == Some(|r.body|) && s.out == r.body[..n]
         && s.rx == got[|r.header| + n..] && s.complete == (n == |r.body|)
  }

  /** `got` is the beginning of the response, or the response and more. */
  predicate Onto(got: seq<byte>, r: Response) {
    got <= r.header + r.body || r.header + r.body <= got
  }

  lemma {:induction false} EndPrefix(b: seq<byte>, h: seq<byte>)
    requires |h| >= 4 && h <= b && FindEnd(h, 0) == |h| - 4
    ensures FindEnd(b, 0) == |h| - 4
  {
    assert EndAt(h, |h| - 4);
    assert EndAt(b, |h| - 4);
    assert forall k :: 0 <= k && k + 4 <= |h| ==> EndAt(b, k) == EndAt(h, k);
  }

  lemma {:induction false} NoEndYet(b: seq<byte>, h: seq<byte>)
    requires |h| >= 4 && b <= h && |b| < |h| && FindEnd(h, 0) == |h| - 4
    ensures FindEnd(b, 0) == |b|
  {
    assert forall k :: 0 <= k && k + 4 <= |b| ==> EndAt(b, k) == EndAt(h, k);
  }

  /** Copying a body of known length out of a buffer that holds its next bytes. */
  lemma {:induction false} CopyBodyIs(out: seq<byte>, n: nat, rx: seq<byte>, cap: nat)
    requires |out| <= n && n + 1 <= cap
    ensures var k := Min(n - |out|, |rx|);
            CopyBody(out, Some(n), rx, cap)
            == if k == |rx| then More(out + rx) else Complete(out + rx[..k], rx[k..])
    decreases |rx|
  {
    if rx == [] {
      assert out + rx == out;
    } else if |out| < n {
      CopyBodyIs(out + [rx[0]], n, rx[1..], cap);
      assert out + [rx[0]] + rx[1..] == out + rx;
      var k := Min(n - |out|, |rx|);
      assert rx[..k] == [rx[0]] + rx[1..][..k - 1];
      assert out + [rx[0]] + rx[1..][..k - 1] == out + rx[..k];
    } else {
      assert out + rx[..0] == out;
    }
  }

  /** The first poll of a request, whatever the last one left in the buffer. */
  lemma {:induction false} FirstPoll(r: Response, got: seq<byte>, a: Arrival, cap: nat)
    requires Framed(r) && !a.fin && |got| + |a.data| <= RX_CAP && Onto(got + a.data, r) && |r.body| + 1 <= cap
    ensures Tracks(Poll(Begin(got), a, cap), r, got + a.data)
  {
    hide Framed, TakeHeader, CopyBody, Onto, Arrive;
    var b := got + a.data;
    ArriveBegin(got, a);
    if |b| < |r.header| {
      HeaderNotYet(r, b);
      assert r.body[..0] == [];
    } else {
      HeaderTaken(r, b);
      BodyTaken(r, b, [], b[|r.header|..], cap);
    }
  }

  lemma {:induction false} ArriveBegin(got: seq<byte>, a: Arrival)
    requires !a.fin && |got| + |a.data| <= RX_CAP
    ensures Arrive(Begin(got), a) == Begin(got + a.data)
  {
  }

  lemma {:induction false} HeaderNotYet(r: Response, b: seq<byte>)
    requires Framed(r) && Onto(b, r) && |b| < |r.header|
    ensures TakeHeader(Begin(b)) == Begin(b)
  {
    hide FindEnd, ContentLength, HasClose;
    assert b <= r.header by { assert (r.header + r.body)[..|b|] == r.header[..|b|]; }
    if b != [] { NoEndYet(b, r.header); }
  }

  lemma {:induction false} HeaderTaken(r: Response, b: seq<byte>)
    requires Framed(r) && Onto(b, r) && |b| >= |r.header|
    ensures TakeHeader(Begin(b)) == State(b[|r.header|..], false, false, true, Some(|r.body|), [], false, false, false)
    ensures r.header + [] + b[|r.header|..] == b
  {
    hide FindEnd, ContentLength, HasClose;
    assert r.header <= b by {
      if b <= r.header + r.body { assert b[..|r.header|] == (r.header + r.body)[..|r.header|]; }
    }
    EndPrefix(b, r.header);
    assert b[..|r.header|] == r.header;
  }

  /** The body loop over what has arrived behind the header. */
  lemma {:induction false} BodyTaken(r: Response, b: seq<byte>, out: seq<byte>, rx: seq<byte>, cap: nat)
    requires |b| >= |r.header| && Onto(b, r) && |r.body| + 1 <= cap
    requires |out| <= |r.body| && r.header + out + rx == b
    ensures var n := Min(|r.body|, |b| - |r.header|);
            CopyBody(out, Some(|r.body|), rx, cap)
            == if |b| <= |r.header| + |r.body| then More(r.body[..n]) else Complete(r.body[..n], b[|r.header| + n..])
  {
    hide CopyBody;
    CopyBodyIs(out, |r.body|, rx, cap);
    var n := Min(|r.body|, |b| - |r.header|);
    var k := Min(|r.body| - |out|, |rx|);
    assert b[|r.header|..] == out + rx;
    assert out + rx[..k] == b[|r.header|..|r.header| + n];
    assert b[|r.header|..|r.header| + n] == r.body[..n] by {
      if b <= r.header + r.body {
        assert b[|r.header|..|r.header| + n] == (r.header + r.body)[|r.header|..|r.header| + n];
      } else {
        assert b[..|r.header| + |r.body|] == r.header + r.body;
        assert b[|r.header|..|r.header| + n] == b[..|r.header| + |r.body|][|r.header|..|r.header| + n];
      }
    }
    assert rx[k..] == b[|r.header| + n..];
    assert out + rx[..|rx|] == out + rx;
  }

  /** Every later poll. */
  lemma {:induction false} NextPoll(s: State, r: Response, got: seq<byte>, a: Arrival, cap: nat)
    requires Framed(r) && Tracks(s, r, got) && !s.complete && !a.fin && |s.rx| + |a.data| <= RX_CAP
    requires Onto(got, r) && Onto(got + a.data, r) && |r.body| + 1 <= cap
    ensures Tracks(Poll(s, a, cap), r, got + a.data)
  {
    hide FindEnd, ContentLength, HasClose, CopyBody;
    if |got| < |r.header| {
      assert s == Begin(got);
      FirstPoll(r, got, a, cap);
    } else {
      var n := |got| - |r.header|;
      assert s.rx == [] && s.out == r.body[..n];
      assert got <= r.header + r.body;
      assert got == r.header + r.body[..n];
      assert s.rx + a.data == a.data;
      BodyTaken(r, got + a.data, s.out, a.data, cap);
    }
  }

  /** Arrivals fit the buffer until the response is complete: `held` bytes are in it. With
      nothing more to arrive the response is wholly there. */
  predicate Fits(r: Response, have: nat, held: nat, arrivals: seq<Arrival>)
    decreases |arrivals|
  {
    if arrivals == [] then held <= RX_CAP && have >= |r.header| + |r.body|
    else
    && held + |arrivals[0].data| <= RX_CAP
    && var now := have + |arrivals[0].data|;
       now >= |r.header| + |r.body| || Fits(r, now, if now < |r.header| then now else 0, arrivals[1..])
  }

  /** Arrivals taken until the response is complete. There is always one poll, which takes
      none when nothing is to come. */
  function Polls(r: Response, have: nat, arrivals: seq<Arrival>): (k: nat)
    ensures k <= |arrivals| && (arrivals != [] ==> 1 <= k)
    decreases |arrivals|
  {
    if arrivals == [] then 0
    else
      var now := have + |arrivals[0].data|;
      if now >= |r.header| + |r.body| || |arrivals| == 1 then 1 else 1 + Polls(r, now, arrivals[1..])
  }

  /** Everything received so far and everything to come is the beginning of the response, or
      the response and more. */
  lemma {:induction false} OntoPrefix(got: seq<byte>, more: seq<byte>, r: Response)
    requires Onto(got + more, r)
    ensures Onto(got, r)
  {
    var whole := r.header + r.body;
    if got + more <= whole {
      assert got == (got + more)[..|got|];
      assert whole[..|got|] == whole[..|got + more|][..|got|];
    } else if |got| <= |whole| {
      assert got == (got + more)[..|got|];
      assert whole == (got + more)[..|whole|];
    } else {
      assert whole == (got + more)[..|whole|];
      assert got[..|whole|] == (got + more)[..|whole|];
    }
  }

  /** The loop from a state that has received part of the response. */
  lemma {:induction false} LoopServes(s: State, r: Response, got: seq<byte>, arrivals: seq<Arrival>, polls: nat, cap: nat)
    requires Framed(r) && |r.body| + 1 <= cap && NoFin(arrivals)
    requires (s == Begin(got) || Tracks(s, r, got)) && !s.complete && Onto(got + Flat(arrivals), r)
    requires Fits(r, |got|, |s.rx|, arrivals) && Polls(r, |got|, arrivals) <= polls && 0 < polls
    ensures var k := Polls(r, |got|, arrivals);
            var (t, rest) := Loop(s, arrivals, polls, cap);
            var b := got + Flat(arrivals[..k]);
            Tracks(t, r, b) && t.complete && |b| >= |r.header| + |r.body| && rest == arrivals[k..]
    decreases |arrivals|
  {
    hide Framed, Poll, Loop, Tracks, Flat, Onto, Polls, Begin;
    if arrivals == [] {
      LoopIdle(s, r, got, polls, cap);
      return;
    }
    var a := arrivals[0];
    var b := got + a.data;
    FlatStep(got, arrivals);
    OntoPrefix(b, Flat(arrivals[1..]), r);
    OntoPrefix(got, a.data, r);
    BeginOpen(got);
    if s == Begin(got) { FirstPoll(r, got, a, cap); } else { TracksOpen(s, r, got); NextPoll(s, r, got, a, cap); }
    var t := Poll(s, a, cap);
    TracksOpen(t, r, b);
    LoopStep(s, arrivals, polls, cap);
    var k := Polls(r, |got|, arrivals);
    PollsStep(r, |got|, arrivals);
    if |b| >= |r.header| + |r.body| {
      TracksDone(t, r, b);
      StopsAt(t, arrivals[1..], polls - 1, cap);
      FlatOne(got, arrivals);
    } else {
      HeldAfter(t, r, b);
      assert arrivals[1..] != [];
      LoopServes(t, r, b, arrivals[1..], polls - 1, cap);
      FlatMore(got, arrivals, k);
    }
  }

  /** A response that lies in the buffer already is served by one poll that brings nothing. */
  lemma {:induction false} LoopIdle(s: State, r: Response, got: seq<byte>, polls: nat, cap: nat)
    requires Framed(r) && |r.body| + 1 <= cap && 0 < polls
    requires (s == Begin(got) || Tracks(s, r, got)) && !s.complete && Onto(got + Flat([]), r)
    requires |s.rx| <= RX_CAP && |got| >= |r.header| + |r.body|
    ensures Polls(r, |got|, []) == 0
    ensures var (t, rest) := Loop(s, [], polls, cap);
            Tracks(t, r, got + Flat([])) && t.complete && rest == []
  {
    hide Framed, Poll, Tracks, Onto, Begin;
    var none := Arrival([], false);
    if s != Begin(got) { TracksDone(s, r, got); }
    BeginOpen(got);
    assert got + Flat([]) == got && got + none.data == got;
    FirstPoll(r, got, none, cap);
    var t := Poll(s, none, cap);
    TracksOpen(t, r, got);
    TracksDone(t, r, got);
    StopsAt(t, [], polls - 1, cap);
  }

  lemma {:induction false} BeginOpen(got: seq<byte>)
    ensures var s := Begin(got); s.rx == got && !s.closed && !s.error && !s.full && !s.complete
  {
  }

  lemma {:induction false} TracksOpen(s: State, r: Response, got: seq<byte>)
    requires Tracks(s, r, got)
    ensures !s.closed && !s.error && !s.full
  {
  }

  lemma {:induction false} TracksDone(s: State, r: Response, got: seq<byte>)
    requires Tracks(s, r, got) && |got| >= |r.header| + |r.body|
    ensures s.complete
  {
  }

  lemma {:induction false} LoopStep(s: State, arrivals: seq<Arrival>, polls: nat, cap: nat)
    requires arrivals != [] && polls > 0 && !s.error && !s.complete && !s.full && !Poll(s, arrivals[0], cap).closed
    ensures Loop(s, arrivals, polls, cap) == Loop(Poll(s, arrivals[0], cap), arrivals[1..], polls - 1, cap)
  {
    hide Poll;
  }

  lemma {:induction false} PollsStep(r: Response, have: nat, arrivals: seq<Arrival>)
    requires arrivals != []
    ensures var now := have + |arrivals[0].data|;
            Polls(r, have, arrivals)
            == if now >= |r.header| + |r.body| || |arrivals| == 1 then 1 else 1 + Polls(r, now, arrivals[1..])
  {
  }

  lemma {:induction false} FlatStep(got: seq<byte>, arrivals: seq<Arrival>)
    requires arrivals != []
    ensures got + arrivals[0].data + Flat(arrivals[1..]) == got + Flat(arrivals)
  {
  }

  lemma {:induction false} FlatOne(got: seq<byte>, arrivals: seq<Arrival>)
    requires arrivals != []
    ensures got + Flat(arrivals[..1]) == got + arrivals[0].data
  {
    assert arrivals[..1] == [arrivals[0]];
    assert Flat([arrivals[0]]) == arrivals[0].data + Flat([]);
  }

  lemma {:induction false} FlatMore(got: seq<byte>, arrivals: seq<Arrival>, k: nat)
    requires 1 <= k <= |arrivals|
    ensures got + Flat(arrivals[..k]) == got + arrivals[0].data + Flat(arrivals[1..][..k - 1])
    ensures arrivals[1..][k - 1..] == arrivals[k..]
  {
    assert arrivals[..k][1..] == arrivals[1..][..k - 1];
  }

  lemma {:induction false} StopsAt(t: State, arrivals: seq<Arrival>, polls: nat, cap: nat)
    requires t.complete
    ensures Loop(t, arrivals, polls, cap) == (t, arrivals)
  {
  }

  lemma {:induction false} HeldAfter(t: State, r: Response, b: seq<byte>)
    requires Tracks(t, r, b) && |b| < |r.header| + |r.body|
    ensures |t.rx| == (if |b| < |r.header| then |b| else 0) && !t.complete
  {
  }

  /** One request: the body, exactly, and the surplus at the front of the buffer. */
  lemma {:induction false} RequestServes(rx: seq<byte>, r: Response, arrivals: seq<Arrival>, cap: nat)
    requires Framed(r) && |r.body| + 1 <= cap && NoFin(arrivals) && Onto(rx + Flat(arrivals), r)
    requires Fits(r, |rx|, |rx|, arrivals) && Polls(r, |rx|, arrivals) <= MAX_POLLS
    ensures var k := Polls(r, |rx|, arrivals);
            var b := rx + Flat(arrivals[..k]);
            && |b| >= |r.header| + |r.body|
            && Request(rx, arrivals, cap) == (Reply(Some(r.body), b[|r.header| + |r.body|..], true), arrivals[k..])
  {
    hide Framed, FindEnd, Poll, Loop, Fits;
    LoopServes(Begin(rx), r, rx, arrivals, MAX_POLLS, cap);
    assert r.body[..|r.body|] == r.body;
  }

  // ---- a session ----

  /** One request after another on the same connection. */
  function Session(rx: seq<byte>, arrivals: seq<Arrival>, n: nat, cap: nat): seq<Option<seq<byte>>>
    decreases n
  {
    if n == 0 then []
    else
      var (reply, rest) := Request(rx, arrivals, cap);
      [reply.body] + Session(reply.rx, rest, n - 1, cap)
  }

  function Stream(rs: seq<Response>): seq<byte> {
    if rs == [] then [] else rs[0].header + rs[0].body + Stream(rs[1..])
  }

  function Bodies(rs: seq<Response>): seq<Option<seq<byte>>> {
    if rs == [] then [] else [Some(rs[0].body)] + Bodies(rs[1..])
  }

  /** Every response of the session is framed, its arrivals fit the buffer and come within
      the poll limit. */
  predicate SessionFits(rs: seq<Response>, rx: seq<byte>, arrivals: seq<Arrival>, cap: nat)
    decreases |rs|
  {
    rs == []
    || (&& Framed(rs[0]) && |rs[0].body| + 1 <= cap && Fits(rs[0], |rx|, |rx|, arrivals)
        && var k := Polls(rs[0], |rx|, arrivals);
           var b := rx + Flat(arrivals[..k]);
           var used := |rs[0].header| + |rs[0].body|;
           k <= MAX_POLLS && (|b| >= used ==> SessionFits(rs[1..], b[used..], arrivals[k..], cap)))
  }

  lemma {:induction false} FlatSplit(arrivals: seq<Arrival>, k: nat)
    requires k <= |arrivals|
    ensures Flat(arrivals) == Flat(arrivals[..k]) + Flat(arrivals[k..])
  {
    if k == 0 {
      assert arrivals[0..] == arrivals && arrivals[..0] == [];
    } else {
      FlatSplit(arrivals[1..], k - 1);
      assert arrivals[..k][1..] == arrivals[1..][..k - 1];
      assert arrivals[k..] == arrivals[1..][k - 1..];
    }
  }

  lemma {:induction false} Surplus(b: seq<byte>, rest: seq<byte>, head: seq<byte>, tail: seq<byte>)
    requires b + rest == head + tail && |b| >= |head|
    ensures b[|head|..] + rest == tail
  {
    assert b[|head|..] + rest == (b + rest)[|head|..];
    assert (head + tail)[|head|..] == tail;
  }

  /** What is left for the later responses once the first has been served. */
  lemma {:induction false} LeftOver(rx: seq<byte>, arrivals: seq<Arrival>, k: nat, r: Response, rs: seq<Response>)
    requires k <= |arrivals| && rx + Flat(arrivals) == Stream([r] + rs)
    ensures var b := rx + Flat(arrivals[..k]);
            |b| >= |r.header| + |r.body| ==> b[|r.header| + |r.body|..] + Flat(arrivals[k..]) == Stream(rs)
    ensures Onto(rx + Flat(arrivals), r)
  {
    hide Flat;
    FlatSplit(arrivals, k);
    assert ([r] + rs)[1..] == rs;
    var b := rx + Flat(arrivals[..k]);
    assert b + Flat(arrivals[k..]) == rx + Flat(arrivals);
    if |b| >= |r.header| + |r.body| {
      Surplus(b, Flat(arrivals[k..]), r.header + r.body, Stream(rs));
    }
  }

  lemma {:induction false} SomeLeft(arrivals: seq<Arrival>, k: nat)
    requires k <= |arrivals| && NoFin(arrivals)
    ensures NoFin(arrivals[k..])
  {
  }

  /** Keep-alive framing: over any stream of responses cut into arrivals in any way that fits
      the buffer, the i-th request returns exactly the i-th body. */
  lemma {:induction false} KeepAlive(rs: seq<Response>, rx: seq<byte>, arrivals: seq<Arrival>, cap: nat)
    requires rx + Flat(arrivals) == Stream(rs) && NoFin(arrivals) && SessionFits(rs, rx, arrivals, cap)
    ensures Session(rx, arrivals, |rs|, cap) == Bodies(rs)
    decreases |rs|
  {
    hide Framed, Request, Fits, Polls, Stream, Flat, Onto, NoFin;
    if rs != [] {
      var r := rs[0];
      assert rs == [r] + rs[1..];
      var k := Polls(r, |rx|, arrivals);
      LeftOver(rx, arrivals, k, r, rs[1..]);
      RequestServes(rx, r, arrivals, cap);
      SomeLeft(arrivals, k);
      KeepAlive(rs[1..], (rx + Flat(arrivals[..k]))[|r.header| + |r.body|..], arrivals[k..], cap);
    }
  }

  // ---- headers that say their length ----

  /** A number in decimal. */
  function Decimal(n: nat): (d: seq<byte>)
    ensures |d| >= 1 && forall k :: 0 <= k < |d| ==> IsDigit(d[k])
  {
    if n < 10 then [0x30 + n] else Decimal(n / 10) + [0x30 + n % 10]
  }

  /** The digit loop over a list of digits. */
  function Value(d: seq<byte>, val: nat): nat
    requires forall k :: 0 <= k < |d| ==> IsDigit(d[k])
  {
    if d == [] then val else Value(d[1..], (val * 10 + DigitValue(d[0])) % WORD)
  }

  lemma {:induction false} ValueAppend(d: seq<byte>, c: byte, val: nat)
    requires IsDigit(c) && forall k :: 0 <= k < |d| ==> IsDigit(d[k])
    ensures Value(d + [c], val) == (Value(d, val) * 10 + DigitValue(c)) % WORD
    decreases |d|
  {
    if d == [] {
      assert (d + [c])[1..] == [];
    } else {
      assert (d + [c])[1..] == d[1..] + [c];
      ValueAppend(d[1..], c, (val * 10 + DigitValue(d[0])) % WORD);
    }
  }

  lemma {:induction false} DecimalLast(n: nat)
    requires n >= 10
    ensures Decimal(n) == Decimal(n / 10) + [0x30 + n % 10]
  {
  }

  lemma {:induction false} ValueOfDecimal(n: nat)
    requires n < WORD
    ensures Value(Decimal(n), 0) == n
  {
    if n < 10 {
      assert Decimal(n)[1..] == [];
    } else {
      hide Value, Decimal;
      ValueOfDecimal(n / 10);
      ValueAppend(Decimal(n / 10), 0x30 + n % 10, 0);
      DecimalLast(n);
    }
  }

  lemma {:induction false} DigitsAre(b: seq<byte>, j: nat, d: seq<byte>, val: nat)
    requires j + |d| <= |b| && b[j..j + |d|] == d && forall k :: 0 <= k < |d| ==> IsDigit(d[k])
    requires j + |d| == |b| || !IsDigit(b[j + |d|])
    ensures Digits(b, j, val) == Value(d, val)
    decreases |d|
  {
    if d != [] {
      assert b[j] == d[0];
      assert b[j + 1..j + |d|] == d[1..];
      DigitsAre(b, j + 1, d[1..], (val * 10 + DigitValue(d[0])) % WORD);
    }
  }

  /** A header line "Content-Length: n", in either case, at its end. */
  function LengthLine(n: nat): (h: seq<byte>) {
    CONTENT + [DASH] + LENGTH + [COLON, SPACE] + Decimal(n) + [CR, LF, CR, LF]
  }

  /** A header whose first usable length line says n is read as n, for every n that fits
      64 bits. */
  lemma {:induction false} LengthReads(pre: seq<byte>, n: nat)
    requires n < WORD && forall i :: 0 <= i < |pre| ==> !LengthFieldAt(pre + LengthLine(n), i)
    ensures ContentLength(pre + LengthLine(n)) == Some(n)
  {
    hide Decimal, LengthFieldAt;
    var b := pre + LengthLine(n);
    SkipToField(b, 0, |pre|);
    FieldIs(pre, n);
    var j := |pre| + 16;
    var d := Decimal(n);
    assert b[j..j + |d|] == d;
    assert b[j + |d|] == CR;
    assert b[j - 1] == SPACE && b[j] == d[0];
    assert SkipBlanks(b, j) == j;
    assert SkipBlanks(b, j - 1) == j;
    DigitsAre(b, j, d, 0);
    ValueOfDecimal(n);
  }

  lemma {:induction false} SkipToField(b: seq<byte>, i: nat, k: nat)
    requires i <= k && k + 15 < |b| && forall j :: i <= j < k ==> !LengthFieldAt(b, j)
    ensures LengthFrom(b, i) == LengthFrom(b, k)
    decreases k - i
  {
    hide LengthFieldAt;
    if i < k { SkipToField(b, i + 1, k); }
  }

  lemma {:induction false} FieldIs(pre: seq<byte>, n: nat)
    ensures |LengthLine(n)| >= 21 && LengthFieldAt(pre + LengthLine(n), |pre|)
  {
    hide Decimal;
    var b, l := pre + LengthLine(n), LengthLine(n);
    forall k | 0 <= k < |l| ensures b[|pre| + k] == l[k] {}
    assert l[..7] == CONTENT && l[7] == DASH && l[8..14] == LENGTH && l[14] == COLON;
    forall k | 0 <= k < 7 ensures Lower(b[|pre| + k]) == CONTENT[k] { assert l[k] == l[..7][k]; }
    forall k | 0 <= k < 6 ensures Lower(b[|pre| + 8 + k]) == LENGTH[k] { assert l[8 + k] == l[8..14][k]; }
  }
}
