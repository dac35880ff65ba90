/**
 The editor's buffer as it runs: an array of line buffers, each a C string, shifted and
 updated in place. A ghost text follows along, and every operation is proved to do to it what
 `EditorText` says.
 */
module EditorBuffer {
  import opened Common
  import opened EditorText

  /** Row r of the buffer is the C string s. */
  ghost predicate Holds(lines: array2<char>, r: nat, s: Line)
    requires lines.Length1 == LINE_LEN && r < lines.Length0
    reads lines
  {
    (forall c :: 0 <= c < |s| ==> lines[r, c] == s[c]) && lines[r, |s|] == '\0'
  }

  /** `slen` */
  method Slen(lines: array2<char>, r: nat, ghost s: Line) returns (n: nat)
    requires lines.Length1 == LINE_LEN && r < lines.Length0 && Holds(lines, r, s)
    ensures n == |s|
  {
    n := 0;
    while lines[r, n] != '\0'
      invariant n <= |s|
      decreases |s| - n
    {
      n := n + 1;
    }
  }

  /** `scopy` of one row to another, from a place in it on. */
  method AppendRow(lines: array2<char>, dst: nat, at: nat, src: nat, ghost d: Line, ghost s: Line)
    requires lines.Length1 == LINE_LEN && dst < lines.Length0 && src < lines.Length0 && dst != src
    requires at <= |d| && Holds(lines, src, s) && at + |s| < LINE_LEN
    requires forall c :: 0 <= c < at ==> lines[dst, c] == d[c]
    modifies lines
    ensures Holds(lines, dst, d[..at] + s)
    ensures forall r, c :: 0 <= r < lines.Length0 && r != dst && 0 <= c < LINE_LEN ==> lines[r, c] == old(lines[r, c])
  {
    var n := 0;
    while lines[src, n] != '\0' && at + n + 1 < LINE_LEN
      invariant n <= |s|
      invariant forall c :: 0 <= c < at ==> lines[dst, c] == d[c]
      invariant forall c :: 0 <= c < n ==> lines[dst, at + c] == s[c]
      invariant forall r, c :: 0 <= r < lines.Length0 && r != dst && 0 <= c < LINE_LEN ==> lines[r, c] == old(lines[r, c])
      decreases |s| - n
    {
      lines[dst, at + n] := lines[src, n];
      n := n + 1;
    }
    lines[dst, at + n] := '\0';
  }

  method CopyRow(lines: array2<char>, dst: nat, src: nat, ghost s: Line)
    requires lines.Length1 == LINE_LEN && dst < lines.Length0 && src < lines.Length0 && dst != src && Holds(lines, src, s)
    modifies lines
    ensures Holds(lines, dst, s)
    ensures forall r, c :: 0 <= r < lines.Length0 && r != dst && 0 <= c < LINE_LEN ==> lines[r, c] == old(lines[r, c])
  {
    AppendRow(lines, dst, 0, src, [], s);
    assert [] + s == s;
  }

  /** All rows of the buffer hold the lines of the text. */
  ghost predicate Shows(lines: array2<char>, t: seq<Line>)
    requires lines.Length0 == MAX_LINES && lines.Length1 == LINE_LEN && |t| <= MAX_LINES
    reads lines
  {
    forall r :: 0 <= r < |t| ==> Holds(lines, r, t[r])
  }

  /** The lines with row `row` there twice. */
  ghost function Doubled(t: seq<Line>, row: nat): (r: seq<Line>)
    requires row < |t|
  {
    t[..row + 1] + t[row..]
  }

  ghost function Without(t: seq<Line>, row: nat): (r: seq<Line>)
    requires row < |t|
  {
    t[..row] + t[row + 1..]
  }

  /** The loop that shifts rows down to make room behind `row`. */
  method ShiftDown(lines: array2<char>, n: nat, row: nat, ghost t: seq<Line>)
    requires lines.Length0 == MAX_LINES && lines.Length1 == LINE_LEN && |t| == n < MAX_LINES && row < n && Shows(lines, t)
    modifies lines
    ensures forall r :: 0 <= r <= n && r != row + 1 ==> Holds(lines, r, Doubled(t, row)[r])
  {
    ghost var u := Doubled(t, row);
    var i := n;
    while i > row + 1
      invariant row < i <= n
      invariant forall r :: 0 <= r < i ==> Holds(lines, r, t[r])
      invariant forall r :: i < r <= n ==> Holds(lines, r, u[r])
    {
      CopyRow(lines, i, i - 1, t[i - 1]);
      assert u[i] == t[i - 1];
      i := i - 1;
    }
    assert forall r :: 0 <= r <= row ==> u[r] == t[r];
  }

  /** The loop that closes the gap when row `row` goes away. */
  method ShiftUp(lines: array2<char>, n: nat, row: nat, ghost t: seq<Line>)
    requires lines.Length0 == MAX_LINES && lines.Length1 == LINE_LEN && |t| == n <= MAX_LINES && row < n
    requires forall r :: 0 <= r < n && r != row ==> Holds(lines, r, t[r])
    modifies lines
    ensures Shows(lines, Without(t, row))
  {
    ghost var u := Without(t, row);
    var i := row;
    assert forall r :: 0 <= r < row ==> u[r] == t[r];
    while i < n - 1
      invariant row <= i <= n - 1
      invariant forall r :: 0 <= r < i ==> Holds(lines, r, u[r])
      invariant forall r :: i < r < n ==> Holds(lines, r, t[r])
    {
      CopyRow(lines, i, i + 1, t[i + 1]);
      assert u[i] == t[i + 1];
      i := i + 1;
    }
  }

  lemma {:induction false} MergedRows(t: seq<Line>, r: nat, joined: Line)
    requires 0 < r < |t|
    ensures Without(t[r - 1 := joined], r) == t[..r - 1] + [joined] + t[r + 1..]
  {
  }

  class Ide {
    const lines: array2<char>
    var n: nat
    var row: int
    var col: int
    var top: int
    ghost var text: seq<Line>

    ghost predicate Valid()
      reads this, lines
    {
      && lines.Length0 == MAX_LINES && lines.Length1 == LINE_LEN
      && |text| == n && 1 <= n <= MAX_LINES && Shows(lines, text)
    }

    ghost function State(): Editor
      reads this
    {
      Editor(text, row, col, top)
    }

    constructor ()
      ensures Valid() && fresh(lines) && State() == Editor([[]], 0, 0, 0)
    {
      lines := new char[MAX_LINES, LINE_LEN]((_, _) => '\0');
      n, row, col, top := 1, 0, 0, 0;
      text := [[]];
    }

    /** `insert_char_at` */
    method InsertCharAt(r: nat, at: nat, c: char)
      requires Valid() && r < n && at <= |text[r]| && c != '\0' && c != '\n'
      modifies this`text, lines
      ensures Valid() && text == Insert(old(text), r, at, c)
    {
      var len := Slen(lines, r, text[r]);
      if len + 1 >= LINE_LEN { return; }
      ghost var s := text[r];
      var i := len + 1;
      while i > at
        modifies lines
        invariant at <= i <= len + 1
        invariant forall k :: 0 <= k < i && k <= len ==> lines[r, k] == old(lines[r, k])
        invariant forall k :: i < k <= len + 1 ==> lines[r, k] == old(lines[r, k - 1])
        invariant forall q, k :: 0 <= q < MAX_LINES && q != r && 0 <= k < LINE_LEN ==> lines[q, k] == old(lines[q, k])
      {
        lines[r, i] := lines[r, i - 1];
        i := i - 1;
      }
      lines[r, at] := c;
      ghost var l: Line := s[..at] + [c] + s[at..];
      assert Holds(lines, r, l) by {
        forall k | 0 <= k < |l| ensures lines[r, k] == l[k] {
          if k > at { assert l[k] == s[k - 1]; }
        }
      }
      text := text[r := l];
    }

    /** `split_line` */
    method SplitLine(r: nat, at: nat)
      requires Valid() && r < n && at <= |text[r]|
      modifies this`text, this`n, lines
      ensures Valid() && text == Split(old(text), r, at)
    {
      if n >= MAX_LINES { return; }
      ShiftDown(lines, n, r, text);
      ghost var u := Doubled(text, r);
      n := n + 1;
      ghost var s, tail := text[r], text[r][at..];
      assert u[r] == s;
      var len := Slen(lines, r, s);
      var k := 0;
      var i := at;
      while i < len && k + 1 < LINE_LEN
        modifies lines
        invariant at <= i <= len && k == i - at
        invariant forall c :: 0 <= c < k ==> lines[r + 1, c] == tail[c]
        invariant forall q :: 0 <= q < n && q != r + 1 ==> Holds(lines, q, u[q])
      {
        lines[r + 1, k] := lines[r, i];
        k, i := k + 1, i + 1;
      }
      lines[r + 1, k] := '\0';
      lines[r, at] := '\0';
      text := text[..r] + [s[..at], tail] + text[r + 1..];
      assert Holds(lines, r, s[..at]) && Holds(lines, r + 1, tail);
      forall q | 0 <= q < n ensures Holds(lines, q, text[q]) {
        if q != r && q != r + 1 { assert text[q] == u[q]; }
      }
    }

    /** `merge_up` */
    method MergeUp(r: int)
      requires Valid() && 0 <= r < n
      modifies this`text, this`n, this`row, this`col, lines
      ensures Valid()
      ensures if r > 0 && CanMerge(old(text), r)
              then text == Merge(old(text), r) && row == r - 1 && col == |old(text)[r - 1]|
              else text == old(text) && row == old(row) && col == old(col)
    {
      if r <= 0 { return; }
      ghost var prev, cur := text[r - 1], text[r];
      var plen := Slen(lines, r - 1, prev);
      var clen := Slen(lines, r, cur);
      ghost var joined: Line;
      if plen + clen + 1 >= LINE_LEN {
        if plen + 2 >= LINE_LEN { return; }
        joined := prev + cur[..LINE_LEN - 2 - plen];
        JoinPart(r, plen, clen, prev, cur);
      } else {
        joined := prev + cur;
        AppendRow(lines, r - 1, plen, r, prev, cur);
        assert prev[..plen] == prev;
      }
      ghost var t := text[r - 1 := joined];
      ShiftUp(lines, n, r, t);
      n := n - 1;
      row := r - 1;
      col := plen;
      text := Without(t, r);
      MergedRows(old(text), r, joined);
    }

    /** The loop of `merge_up` that joins what fits. */
    method JoinPart(r: nat, plen: nat, clen: nat, ghost prev: Line, ghost cur: Line)
      requires Valid() && 0 < r < n && prev == text[r - 1] && cur == text[r] && plen == |prev| && clen == |cur|
      requires plen + clen + 1 >= LINE_LEN && plen + 2 < LINE_LEN
      modifies lines
      ensures Holds(lines, r - 1, prev + cur[..LINE_LEN - 2 - plen])
      ensures forall q, c :: 0 <= q < MAX_LINES && q != r - 1 && 0 <= c < LINE_LEN ==> lines[q, c] == old(lines[q, c])
    {
      var room := LINE_LEN - 2 - plen;
      var i := 0;
      while i <= room && i < clen
        modifies lines
        invariant i <= room + 1 && i <= clen
        invariant forall c :: 0 <= c < plen ==> lines[r - 1, c] == prev[c]
        invariant forall c :: 0 <= c < i ==> lines[r - 1, plen + c] == cur[c]
        invariant forall q, c :: 0 <= q < MAX_LINES && q != r - 1 && 0 <= c < LINE_LEN ==> lines[q, c] == old(lines[q, c])
      {
        lines[r - 1, plen + i] := lines[r, i];
        i := i + 1;
      }
      lines[r - 1, plen + (if room < clen then room else clen)] := '\0';
    }

    /** `delete_char` */
    method DeleteChar(r: nat, at: nat)
      requires Valid() && r < n && at <= |text[r]|
      modifies this`text, this`n, lines
      ensures Valid() && text == Delete(old(text), r, at)
    {
      ghost var s := text[r];
      var len := Slen(lines, r, s);
      if at >= len {
        if r + 1 < n { TakeNext(r, len); }
        return;
      }
      ghost var l: Line := s[..at] + s[at + 1..];
      var i := at;
      while i < len
        modifies lines
        invariant at <= i <= len
        invariant forall k :: 0 <= k < i && k < |l| ==> lines[r, k] == l[k]
        invariant forall k :: i <= k < len ==> lines[r, k] == s[k]
        invariant lines[r, len] == '\0' && (i == len ==> lines[r, len - 1] == '\0')
        invariant forall q, k :: 0 <= q < MAX_LINES && q != r && 0 <= k < LINE_LEN ==> lines[q, k] == old(lines[q, k])
      {
        assert i < |l| ==> l[i] == s[i + 1];
        lines[r, i] := lines[r, i + 1];
        i := i + 1;
      }
      assert Holds(lines, r, l);
      text := text[r := l];
    }

    /** Deleting at the end of a line that has one behind it. */
    method TakeNext(r: nat, len: nat)
      requires Valid() && r + 1 < n && len == |text[r]|
      modifies this`text, this`n, lines
      ensures Valid() && text == Delete(old(text), r, len)
    {
      ghost var line, next := text[r], text[r + 1];
      var nlen := Slen(lines, r + 1, next);
      ghost var joined := line;
      if len + nlen + 1 < LINE_LEN {
        joined := line + next;
        AppendRow(lines, r, len, r + 1, line, next);
        assert line[..len] == line;
      }
      ghost var t := text[r := joined];
      ShiftUp(lines, n, r + 1, t);
      n := n - 1;
      text := Without(t, r + 1);
      assert text == old(text)[..r] + [joined] + old(text)[r + 2..];
    }

    /** `clamp_cursor` */
    method ClampCursor()
      requires Valid()
      modifies this`row, this`col
      ensures Valid() && State() == Clamped(old(State()))
    {
      if row < 0 { row := 0; }
      if row >= n { row := n - 1; }
      var len := Slen(lines, row, text[row]);
      if col < 0 { col := 0; }
      if col > len { col := len; }
    }

    /** `ensure_visible` */
    method EnsureVisible()
      requires Valid()
      modifies this`top
      ensures Valid() && State() == Shown(old(State()))
    {
      if row < top { top := row; }
      if row >= top + BODY_ROWS { top := row - (BODY_ROWS - 1); }
      if top < 0 { top := 0; }
    }

    method InsertSpaces(r: nat, at: nat)
      requires Valid() && r < n && at <= |text[r]|
      modifies this`text, lines
      ensures Valid() && text == Spaces(old(text), r, at, 4)
    {
      hide Insert;
      var s := 0;
      while s < 4
        invariant s <= 4 && Valid() && r < n && at <= |text[r]|
        invariant Spaces(text, r, at, 4 - s) == Spaces(old(text), r, at, 4)
      {
        ghost var before := text;
        InsertCharAt(r, at, ' ');
        InsertRoom(before, r, at);
        s := s + 1;
      }
    }

    /** The key handler of `basic_ide`. */
    method HandleKey(k: Key)
      requires Valid() && Placed(State()) && (k.Typed? ==> Printable(k.c))
      modifies this, lines
      ensures Valid() && State() == Press(old(State()), k)
    {
      hide Insert, Split, Merge, Delete, Spaces, Shows, Clamped, Shown;
      match k
      case Up => row := row - 1; ClampCursor(); EnsureVisible();
      case Down => row := row + 1; ClampCursor(); EnsureVisible();
      case Left => col := col - 1; ClampCursor(); EnsureVisible();
      case Right => col := col + 1; ClampCursor(); EnsureVisible();
      case Home => col := 0; EnsureVisible();
      case End =>
        var len := RowLength();
        col := len;
        EnsureVisible();
      case Del => DeleteChar(row, col); EnsureVisible();
      case Enter =>
        SplitLine(row, col);
        row := row + 1;
        col := 0;
        ClampCursor();
        EnsureVisible();
      case Backspace =>
        if col == 0 {
          MergeUp(row);
        } else {
          col := col - 1;
          DeleteChar(row, col);
        }
        ClampCursor();
        EnsureVisible();
      case Tab =>
        InsertSpaces(row, col);
        col := col + 4;
        ClampCursor();
        EnsureVisible();
      case Typed(c) =>
        InsertCharAt(row, col, c);
        col := col + 1;
        ClampCursor();
        EnsureVisible();
    }

    method RowLength() returns (len: nat)
      requires Valid() && 0 <= row < n
      ensures len == |text[row]|
    {
      len := Slen(lines, row, text[row]);
    }
  }

  lemma {:induction false} InsertRoom(t: seq<Line>, r: nat, at: nat)
    requires r < |t| && at <= |t[r]|
    ensures |Insert(t, r, at, ' ')| == |t| && at <= |Insert(t, r, at, ' ')[r]|
  {
  }
}
