/**
 The receive loop as it runs: the connection's buffer is filled by polls, read and
 compacted in place, and the body is copied into the caller's buffer.
 */
module HttpReceiver {
  import opened Common
  import opened Http

  /** `parse_content_length` */
  method ParseContentLength(b: seq<byte>) returns (r: Option<nat>)
    ensures r == ContentLength(b)
  {
    hide LengthFieldAt;
    var i := 0;
    while i + 15 < |b|
      invariant i <= |b| && LengthFrom(b, i) == ContentLength(b)
    {
      if LengthFieldAt(b, i) {
        var j := i + 15;
        while j < |b| && (b[j] == SPACE || b[j] == TAB)
          invariant i + 15 <= j <= |b| && SkipBlanks(b, j) == SkipBlanks(b, i + 15)
        {
          j := j + 1;
        }
        var val: nat, got := 0, false;
        ghost var first := j;
        while j < |b| && IsDigit(b[j])
          invariant first <= j <= |b| && got == (j > first) && val < WORD
          invariant got ==> IsDigit(b[first])
          invariant Digits(b, j, val) == Digits(b, first, 0)
        {
          val := (val * 10 + DigitValue(b[j])) % WORD;
          got := true;
          j := j + 1;
        }
        if got { return Some(val); }
      }
      i := i + 1;
    }
    r := None;
  }

  /** `header_has_close` */
  method HeaderHasClose(b: seq<byte>) returns (r: bool)
    ensures r == HasClose(b)
  {
    hide CloseFieldAt;
    var i := 0;
    while i + 11 < |b|
      invariant i <= |b| && forall k :: 0 <= k < i ==> !CloseFieldAt(b, k)
    {
      if CloseFieldAt(b, i) { return true; }
      i := i + 1;
    }
    forall k | i <= k < |b| ensures !CloseFieldAt(b, k) { TooShort(b, k); }
    r := false;
  }

  lemma {:induction false} TooShort(b: seq<byte>, k: nat)
    requires k + 11 >= |b|
    ensures !CloseFieldAt(b, k)
  {
  }

  /** What the header part does when no header ends in the buffer. */
  lemma {:induction false} HeaderStays(s: State)
    ensures s.headersDone || s.rx == [] ==> TakeHeader(s) == s
    ensures !s.headersDone && s.rx != [] && FindEnd(s.rx, 0) == |s.rx| ==>
              TakeHeader(s) == if |s.rx| >= RX_CAP then s.(error := true) else s
  {
    hide FindEnd;
  }

  /** And when one does. */
  lemma {:induction false} HeaderFound(s: State)
    requires !s.headersDone && s.rx != [] && FindEnd(s.rx, 0) < |s.rx|
    ensures var j := FindEnd(s.rx, 0);
            j + 4 <= |s.rx|
            && var h := s.rx[..j + 4];
            TakeHeader(s) == s.(headersDone := true, sawClose := s.sawClose || HasClose(h),
              length := (match ContentLength(h) case Some(n) => Some(n) case None => s.length), rx := s.rx[j + 4..])
  {
    hide FindEnd, ContentLength, HasClose;
  }

  class Receiver {
    const buf: array<byte>
    var len: nat
    var error: bool
    var closed: bool

    ghost predicate Valid()
      reads this
    {
      buf.Length == RX_CAP && len <= RX_CAP
    }

    ghost function Rx(): seq<byte>
      requires Valid()
      reads this, buf
    {
      buf[..len]
    }

    constructor ()
      ensures Valid() && fresh(buf) && Rx() == [] && !error && !closed
    {
      buf := new byte[RX_CAP](_ => 0);
      len := 0;
      error, closed := false, false;
    }

    /** `net_poll`, as far as this connection sees it. */
    method NetPoll(a: Arrival)
      requires Valid()
      modifies this, buf
      ensures Valid()
      ensures Rx() == old(Rx()) + a.data[..Min(|a.data|, RX_CAP - old(len))]
      ensures error == (old(error) || |a.data| > RX_CAP - old(len)) && closed == (old(closed) || a.fin)
    {
      var copy := Min(|a.data|, RX_CAP - len);
      for i := 0 to copy
        invariant len == old(len) && error == old(error) && closed == old(closed)
        invariant buf[..len] == old(buf[..len])
        invariant forall k :: 0 <= k < i ==> buf[len + k] == a.data[k]
      {
        buf[len + i] := a.data[i];
      }
      error := error || copy < |a.data|;
      len := len + copy;
      assert buf[..len] == old(buf[..len]) + a.data[..copy];
      closed := closed || a.fin;
    }

    /** The search for the blank line. */
    method ScanHeader() returns (j: nat)
      requires Valid()
      ensures j == FindEnd(Rx(), 0)
    {
      j := 0;
      while j + 3 < len
        invariant j <= len && FindEnd(Rx(), j) == FindEnd(Rx(), 0)
      {
        if buf[j] == CR && buf[j + 1] == LF && buf[j + 2] == CR && buf[j + 3] == LF { return; }
        j := j + 1;
      }
      j := len;
    }

    /** The compaction loop. */
    method Compact(i: nat)
      requires Valid() && i <= len
      modifies this`len, buf
      ensures Valid() && Rx() == old(Rx())[i..]
    {
      var rem := len - i;
      for k := 0 to rem
        invariant len == old(len)
        invariant forall m :: 0 <= m < k ==> buf[m] == old(buf[i + m])
        invariant forall m :: k <= m < len ==> buf[m] == old(buf[m])
      {
        buf[k] := buf[i + k];
      }
      len := rem;
    }

    /** What a complete header says. */
    method ReadHeader(h: seq<byte>, s: Counters) returns (t: Counters)
      ensures t == s.(headersDone := true, sawClose := s.sawClose || HasClose(h),
                      length := match ContentLength(h) case Some(n) => Some(n) case None => s.length)
    {
      hide HasClose, ContentLength;
      t := s;
      var close := HeaderHasClose(h);
      if close { t := t.(sawClose := true); }
      var cl := ParseContentLength(h);
      if cl.Some? { t := t.(length := cl); }
      t := t.(headersDone := true);
    }

    /** The header part of the inner loop: i is where the body starts. */
    method HeaderPart(ghost before: State, ghost out: seq<byte>, s: Counters) returns (i: nat, t: Counters, ghost after: State)
      requires Valid() && Agree(before, Rx(), error, closed, out, s)
      modifies this`error
      ensures Valid() && i <= len && after == TakeHeader(before) && Agree(after, Rx()[i..], error, closed, out, t)
      ensures t.total == s.total && t.full == s.full && t.complete == s.complete
    {
      hide FindEnd, ContentLength, HasClose, TakeHeader, EndAt;
      t, i, after := s, 0, TakeHeader(before);
      ghost var rx := Rx();
      assert rx[0..] == rx && before.rx == rx;
      HeaderStays(before);
      if len == 0 || t.headersDone { return; }
      var j := ScanHeader();
      if j == len {
        if len >= RX_CAP { error := true; }
        assert Rx() == rx && rx[0..] == rx;
        return;
      }
      HeaderFound(before);
      var h := buf[..j + 4];
      assert h == rx[..j + 4];
      t := ReadHeader(h, t);
      i := j + 4;
    }

    /** The body part of the inner loop, and the compaction. */
    method BodyPart(out: array<byte>, from: nat, ghost before: State, s: Counters) returns (t: Counters, ghost after: State)
      requires Valid() && out != buf && s.total <= out.Length && 0 < out.Length && from <= len && !s.full
      requires Agree(before, Rx()[from..], error, closed, out[..s.total], s)
      modifies this`len, buf, out
      ensures Valid() && t.total <= out.Length && after == TakeBody(before, out.Length)
      ensures Agree(after, if t.full then [] else Rx(), error, closed, out[..t.total], t)
    {
      hide CopyBody;
      var i := from;
      t := s;
      if t.headersDone { i, t := CopyOut(out, i, t); }
      after := TakeBody(before, out.Length);
      if t.full { return; }
      ghost var left := Rx()[i..];
      assert i == 0 ==> left == Rx();
      if i > 0 { Compact(i); }
    }

    /** One round of the receive loop, over the caller's buffer and counters. */
    method Round(a: Arrival, out: array<byte>, ghost before: State, s: Counters) returns (t: Counters, ghost after: State)
      requires Valid() && out != buf && s.total <= out.Length && 0 < out.Length && !s.full
      requires Agree(before, Rx(), error, closed, out[..s.total], s)
      modifies this, buf, out
      ensures Valid() && t.total <= out.Length
      ensures after == Poll(before, a, out.Length) && Agree(after, if t.full then [] else Rx(), error, closed, out[..t.total], t)
    {
      hide TakeBody, TakeHeader;
      NetPoll(a);
      assert a.data[..|a.data|] == a.data;
      ghost var mid := Arrive(before, a);
      var i;
      i, t, mid := HeaderPart(mid, out[..s.total], s);
      t, mid := BodyPart(out, i, mid, t);
      after := Poll(before, a, out.Length);
      if t.full { return; }
      if t.length.Some? && t.total >= t.length.value { t := t.(complete := true); }
      else if closed { t := t.(sawClose := true); }
    }

    /** The copying part of the inner loop, from buffer position i on. */
    method CopyOut(out: array<byte>, from: nat, s: Counters) returns (i: nat, t: Counters)
      requires Valid() && out != buf && s.total <= out.Length && 0 < out.Length && from <= len && s.headersDone
      modifies out
      ensures Valid() && from <= i <= len && t.total <= out.Length
      ensures t == s.(total := t.total, complete := t.complete, full := t.full)
      ensures match CopyBody(old(out[..s.total]), s.length, Rx()[from..], out.Length)
              case More(o) => i == len && out[..t.total] == o && t.complete == s.complete && t.full == s.full
              case Complete(o, rest) => out[..t.total] == o && rest == Rx()[i..] && t.complete && t.full == s.full
              case Full(o) => out[..t.total] == o && t.full && t.complete == s.complete
    {
      i, t := from, s;
      assert Rx()[from..] == Rx()[i..];
      while i < len
        invariant from <= i <= len && t.total <= out.Length
        invariant t == s.(total := t.total)
        invariant CopyBody(out[..t.total], s.length, Rx()[i..], out.Length)
                  == CopyBody(old(out[..s.total]), s.length, Rx()[from..], out.Length)
      {
        assert Rx()[i..][1..] == Rx()[i + 1..] && Rx()[i..][0] == buf[i];
        if t.length.Some? && t.total >= t.length.value {
          t := t.(complete := true);
          return;
        }
        if t.total + 1 >= out.Length {
          t := t.(full := true);
          return;
        }
        ghost var was := out[..t.total];
        out[t.total] := buf[i];
        t := t.(total := t.total + 1);
        i := i + 1;
        assert out[..t.total] == was + [buf[i - 1]];
      }
      assert Rx()[i..] == [];
    }

    /** The receive part of `http_request` on an open connection: the length of the body in
        `out`, or -1. */
    method Receive(arrivals: seq<Arrival>, out: array<byte>) returns (r: int, kept: bool, rest: seq<Arrival>)
      requires Valid() && out != buf && 0 < out.Length && !error && !closed
      modifies this, buf, out
      ensures Valid()
      ensures var (reply, left) := Request(old(Rx()), arrivals, out.Length);
              && rest == left && kept == reply.kept && Rx() == reply.rx
              && (r >= 0 <==> reply.body.Some?) && (r >= 0 ==> r <= out.Length && out[..r] == reply.body.value)
    {
      hide Poll;
      rest := arrivals;
      var s := Counters(0, None, false, false, false, false);
      ghost var state := Begin(Rx());
      var tries := 0;
      while tries < MAX_POLLS && !error && !s.complete
        invariant Valid() && tries <= MAX_POLLS && s.total <= out.Length && !s.full
        invariant Agree(state, Rx(), error, closed, out[..s.total], s)
        invariant Loop(state, rest, MAX_POLLS - tries, out.Length) == Loop(Begin(old(Rx())), arrivals, MAX_POLLS, out.Length)
      {
        var a := if rest == [] then Arrival([], false) else rest[0];
        s, state := Round(a, out, state, s);
        rest := if rest == [] then [] else rest[1..];
        tries := tries + 1;
        if s.full {
          len := 0;
          return s.total, !(s.sawClose || closed), rest;
        }
        if closed && !s.complete { break; }
      }
      kept := !(s.sawClose || closed || error);
      if !kept || !s.complete { len := 0; }
      r := if s.headersDone then s.total else -1;
    }
  }

  /** The local variables of the receive loop. */
  datatype Counters = Counters(total: nat, length: Option<nat>, headersDone: bool, sawClose: bool, complete: bool, full: bool)

  /** The variables and buffers show the abstract state. */
  ghost predicate Agree(s: State, rx: seq<byte>, error: bool, closed: bool, out: seq<byte>, c: Counters) {
    s == State(rx, error, closed, c.headersDone, c.length, out, c.sawClose, c.complete, c.full)
  }
}
