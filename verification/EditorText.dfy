/**
 The editor's buffer as a text: lines joined by newlines, a cursor, and what every key does
 to both.
 */
module EditorText {
  import opened Common

  const MAX_LINES: nat := 2048
  const LINE_LEN: nat := 200   // a line buffer, terminator included
  const BODY_ROWS: nat := 21

  type Line = s: string | |s| < LINE_LEN && forall i :: 0 <= i < |s| ==> s[i] != '\0' && s[i] != '\n'

  datatype Editor = Editor(text: seq<Line>, row: int, col: int, top: int)

  datatype Key = Up | Down | Left | Right | Home | End | Del | Enter | Backspace | Tab | Typed(c: char)

  // ---- the text ----

  /** The lines joined by newlines. */
  function Joined(t: seq<Line>): string {
    if t == [] then "" else if |t| == 1 then t[0] else t[0] + ['\n'] + Joined(t[1..])
  }

  /** Where a cursor stands in the joined text. */
  function Offset(t: seq<Line>, row: nat, col: nat): nat
    requires row < |t|
  {
    if row == 0 then col else |t[0]| + 1 + Offset(t[1..], row - 1, col)
  }

  /** Lines with a newline behind each, and before each. */
  function Before(t: seq<Line>): string {
    if t == [] then "" else t[0] + ['\n'] + Before(t[1..])
  }

  function After(t: seq<Line>): string {
    if t == [] then "" else ['\n'] + t[0] + After(t[1..])
  }

  // ---- editing, as the code does it ----

  /** `insert_char_at` on a row of the buffer. */
  function Insert(t: seq<Line>, row: nat, col: nat, c: char): (r: seq<Line>)
    requires row < |t| && col <= |t[row]| && c != '\0' && c != '\n'
    ensures |r| == |t|
  {
    if |t[row]| + 1 >= LINE_LEN then t else t[row := t[row][..col] + [c] + t[row][col..]]
  }

  /** `split_line` */
  function Split(t: seq<Line>, row: nat, col: nat): (r: seq<Line>)
    requires row < |t| && col <= |t[row]|
  {
    if |t| >= MAX_LINES then t else t[..row] + [t[row][..col], t[row][col..]] + t[row + 1..]
  }

  /** `merge_up` gives up when the line above is full. */
  predicate CanMerge(t: seq<Line>, row: nat)
    requires 0 < row < |t|
  {
    |t[row - 1]| + |t[row]| + 1 < LINE_LEN || |t[row - 1]| + 2 < LINE_LEN
  }

  /** `merge_up` of row into the one above: whole, or what fits, or not at all. */
  function Merge(t: seq<Line>, row: nat): (r: seq<Line>)
    requires 0 < row < |t|
  {
    var prev, cur := t[row - 1], t[row];
    if |prev| + |cur| + 1 < LINE_LEN then t[..row - 1] + [prev + cur] + t[row + 1..]
    else if !CanMerge(t, row) then t
    else t[..row - 1] + [prev + cur[..LINE_LEN - 2 - |prev|]] + t[row + 1..]
  }

  /** `delete_char`: at the end of a line the next one is taken away, and appended only when
      it fits. */
  function Delete(t: seq<Line>, row: nat, col: nat): (r: seq<Line>)
    requires row < |t| && col <= |t[row]|
  {
    var line := t[row];
    if col < |line| then t[row := line[..col] + line[col + 1..]]
    else if row + 1 >= |t| then t
    else if |line| + |t[row + 1]| + 1 < LINE_LEN then t[..row] + [line + t[row + 1]] + t[row + 2..]
    else t[..row] + [line] + t[row + 2..]
  }

  function Clamp(lo: int, x: int, hi: int): int { if x < lo then lo else if x > hi then hi else x }

  /** `clamp_cursor` on a buffer that has lines. */
  function Clamped(e: Editor): (r: Editor)
    requires e.text != []
  {
    var row := Clamp(0, e.row, |e.text| - 1);
    e.(row := row, col := Clamp(0, e.col, |e.text[row]|))
  }

  /** `ensure_visible` */
  function Shown(e: Editor): (r: Editor) {
    var top := if e.row < e.top then e.row else e.top;
    var top' := if e.row >= top + BODY_ROWS then e.row - (BODY_ROWS - 1) else top;
    e.(top := Max(0, top'))
  }

  predicate Placed(e: Editor) {
    && 1 <= |e.text| <= MAX_LINES && 0 <= e.row < |e.text| && 0 <= e.col <= |e.text[e.row]|
  }

  predicate Visible(e: Editor) { 0 <= e.top <= e.row < e.top + BODY_ROWS }

  function Spaces(t: seq<Line>, row: nat, col: nat, n: nat): (r: seq<Line>)
    requires row < |t| && col <= |t[row]|
    ensures |r| == |t| && col <= |r[row]|
    decreases n
  {
    if n == 0 then t else Spaces(Insert(t, row, col, ' '), row, col, n - 1)
  }

  predicate Printable(c: char) { 32 <= c as int < 127 }

  /** What a key does. */
  function Press(e: Editor, k: Key): (r: Editor)
    requires Placed(e) && (k.Typed? ==> Printable(k.c))
  {
    match k
    case Up => Shown(Clamped(e.(row := e.row - 1)))
    case Down => Shown(Clamped(e.(row := e.row + 1)))
    case Left => Shown(Clamped(e.(col := e.col - 1)))
    case Right => Shown(Clamped(e.(col := e.col + 1)))
    case Home => Shown(e.(col := 0))
    case End => Shown(e.(col := |e.text[e.row]|))
    case Del => Shown(e.(text := Delete(e.text, e.row, e.col)))
    case Enter => Shown(Clamped(e.(text := Split(e.text, e.row, e.col), row := e.row + 1, col := 0)))
    case Backspace =>
      if e.col > 0 then Shown(Clamped(e.(text := Delete(e.text, e.row, e.col - 1), col := e.col - 1)))
      else if e.row > 0 && CanMerge(e.text, e.row) then
        Shown(Clamped(e.(text := Merge(e.text, e.row), row := e.row - 1, col := |e.text[e.row - 1]|)))
      else Shown(Clamped(e))
    case Tab => Shown(Clamped(e.(text := Spaces(e.text, e.row, e.col, 4), col := e.col + 4)))
    case Typed(c) => Shown(Clamped(e.(text := Insert(e.text, e.row, e.col, c), col := e.col + 1)))
  }

  // ---- the cursor ----

  lemma {:induction false} ClampedPlaced(e: Editor)
    requires 1 <= |e.text| <= MAX_LINES
    ensures Placed(Shown(Clamped(e)))
    ensures e.top >= 0 ==> Visible(Shown(Clamped(e)))
  {
  }

  lemma {:induction false} ShownPlaced(e: Editor)
    requires Placed(e)
    ensures Placed(Shown(e))
    ensures e.top >= 0 ==> Visible(Shown(e))
  {
  }

  lemma {:induction false} SplitCount(t: seq<Line>, row: nat, col: nat)
    requires row < |t| <= MAX_LINES && col <= |t[row]|
    ensures 1 <= |Split(t, row, col)| <= MAX_LINES
  {
  }

  lemma {:induction false} DeleteCount(t: seq<Line>, row: nat, col: nat)
    requires row < |t| && col <= |t[row]|
    ensures row < |Delete(t, row, col)| <= |t| && col <= |Delete(t, row, col)[row]|
  {
  }

  lemma {:induction false} MergeCount(t: seq<Line>, row: nat)
    requires 0 < row < |t|
    ensures 1 <= |Merge(t, row)| <= |t|
  {
  }

  /** After every key the cursor is in the text and on the screen. */
  lemma {:induction false} PressPlaced(e: Editor, k: Key)
    requires Placed(e) && Visible(e) && (k.Typed? ==> Printable(k.c))
    ensures Placed(Press(e, k)) && Visible(Press(e, k))
  {
    hide Spaces, Insert, Split, Merge, Delete, Clamped, Shown, CanMerge;
    match k
    case Up => ClampedPlaced(e.(row := e.row - 1));
    case Down => ClampedPlaced(e.(row := e.row + 1));
    case Left => ClampedPlaced(e.(col := e.col - 1));
    case Right => ClampedPlaced(e.(col := e.col + 1));
    case Home => ShownPlaced(e.(col := 0));
    case End => ShownPlaced(e.(col := |e.text[e.row]|));
    case Del =>
      DeleteCount(e.text, e.row, e.col);
      ShownPlaced(e.(text := Delete(e.text, e.row, e.col)));
    case Enter =>
      SplitCount(e.text, e.row, e.col);
      ClampedPlaced(e.(text := Split(e.text, e.row, e.col), row := e.row + 1, col := 0));
    case Backspace =>
      if e.col > 0 {
        DeleteCount(e.text, e.row, e.col - 1);
        ClampedPlaced(e.(text := Delete(e.text, e.row, e.col - 1), col := e.col - 1));
      } else if e.row > 0 && CanMerge(e.text, e.row) {
        MergeCount(e.text, e.row);
        ClampedPlaced(e.(text := Merge(e.text, e.row), row := e.row - 1, col := |e.text[e.row - 1]|));
      } else {
        ClampedPlaced(e);
      }
    case Tab => ClampedPlaced(e.(text := Spaces(e.text, e.row, e.col, 4), col := e.col + 4));
    case Typed(c) => ClampedPlaced(e.(text := Insert(e.text, e.row, e.col, c), col := e.col + 1));
  }

  // ---- joining ----

  lemma {:induction false} BeforeAppend(a: seq<Line>, b: seq<Line>)
    ensures Before(a + b) == Before(a) + Before(b)
  {
    if a == [] {
      assert a + b == b;
    } else {
      assert (a + b)[1..] == a[1..] + b;
      BeforeAppend(a[1..], b);
    }
  }

  lemma {:induction false} JoinedAfter(l: Line, b: seq<Line>)
    ensures Joined([l] + b) == l + After(b)
    decreases |b|
  {
    assert ([l] + b)[1..] == b;
    if b != [] {
      assert b == [b[0]] + b[1..];
      JoinedAfter(b[0], b[1..]);
    }
  }

  /** The text around some lines in the middle. */
  lemma {:induction false} JoinedMiddle(a: seq<Line>, mid: seq<Line>, b: seq<Line>)
    requires mid != []
    ensures Joined(a + mid + b) == Before(a) + Joined(mid) + After(b)
  {
    if a != [] {
      assert (a + mid + b)[1..] == a[1..] + mid + b;
      JoinedMiddle(a[1..], mid, b);
    } else {
      assert a + mid + b == mid + b;
      MiddleAfter(mid, b);
    }
  }

  lemma {:induction false} MiddleAfter(mid: seq<Line>, b: seq<Line>)
    requires mid != []
    ensures Joined(mid + b) == Joined(mid) + After(b)
  {
    if |mid| == 1 {
      assert mid == [mid[0]];
      JoinedAfter(mid[0], b);
    } else {
      assert (mid + b)[1..] == mid[1..] + b;
      MiddleAfter(mid[1..], b);
    }
  }

  lemma {:induction false} OffsetBefore(t: seq<Line>, row: nat, col: nat)
    requires row < |t|
    ensures Offset(t, row, col) == |Before(t[..row])| + col
  {
    if row > 0 {
      OffsetBefore(t[1..], row - 1, col);
      assert t[..row][1..] == t[1..][..row - 1];
    }
  }

  lemma {:induction false} JoinOne(l: Line)
    ensures Joined([l]) == l
  {
  }

  lemma {:induction false} JoinTwo(l: Line, m: Line)
    ensures Joined([l, m]) == l + ['\n'] + m
  {
    assert [l, m][1..] == [m];
  }

  // ---- editing the text ----

  function Inserted(s: string, at: nat, c: char): string
    requires at <= |s|
  {
    s[..at] + [c] + s[at..]
  }

  function Removed(s: string, at: nat): string
    requires at < |s|
  {
    s[..at] + s[at + 1..]
  }

  lemma {:induction false} InsertMiddle(a: string, l: string, b: string, col: nat, c: char)
    requires col <= |l|
    ensures Inserted(a + l + b, |a| + col, c) == a + (l[..col] + [c] + l[col..]) + b
  {
    var s := a + l + b;
    assert s[..|a| + col] == a + l[..col];
    assert s[|a| + col..] == l[col..] + b;
  }

  lemma {:induction false} RemoveMiddle(a: string, l: string, b: string, col: nat)
    requires col < |l|
    ensures Removed(a + l + b, |a| + col) == a + (l[..col] + l[col + 1..]) + b
  {
    var s := a + l + b;
    assert s[..|a| + col] == a + l[..col];
    assert s[|a| + col + 1..] == l[col + 1..] + b;
  }

  lemma {:induction false} SplitAt(t: seq<Line>, row: nat)
    requires row < |t|
    ensures t == t[..row] + [t[row]] + t[row + 1..]
    ensures Joined(t) == Before(t[..row]) + t[row] + After(t[row + 1..])
  {
    assert t == t[..row] + [t[row]] + t[row + 1..];
    JoinedMiddle(t[..row], [t[row]], t[row + 1..]);
    JoinOne(t[row]);
  }

  /** Inserting puts one character at the cursor's place in the text, as long as the line has
      room; otherwise nothing changes. */
  lemma {:induction false} InsertText(t: seq<Line>, row: nat, col: nat, c: char)
    requires row < |t| && col <= |t[row]| && c != '\0' && c != '\n'
    ensures Offset(t, row, col) <= |Joined(t)|
    ensures Joined(Insert(t, row, col, c))
            == if |t[row]| <= LINE_LEN - 2 then Inserted(Joined(t), Offset(t, row, col), c) else Joined(t)
  {
    hide Joined, Before, After, Offset;
    SplitAt(t, row);
    OffsetBefore(t, row, col);
    if |t[row]| <= LINE_LEN - 2 {
      var l: Line := t[row][..col] + [c] + t[row][col..];
      var r := t[row := l];
      assert r == t[..row] + [l] + t[row + 1..];
      JoinedMiddle(t[..row], [l], t[row + 1..]);
      JoinOne(l);
      InsertMiddle(Before(t[..row]), t[row], After(t[row + 1..]), col, c);
    }
  }

  /** Splitting puts a newline there, as long as there is room for a line. */
  lemma {:induction false} SplitText(t: seq<Line>, row: nat, col: nat)
    requires row < |t| && col <= |t[row]|
    ensures Offset(t, row, col) <= |Joined(t)|
    ensures Joined(Split(t, row, col))
            == if |t| < MAX_LINES then Inserted(Joined(t), Offset(t, row, col), '\n') else Joined(t)
  {
    hide Joined, Before, After, Offset;
    SplitAt(t, row);
    OffsetBefore(t, row, col);
    if |t| < MAX_LINES {
      var l: Line, m: Line := t[row][..col], t[row][col..];
      JoinedMiddle(t[..row], [l, m], t[row + 1..]);
      JoinTwo(l, m);
      InsertMiddle(Before(t[..row]), t[row], After(t[row + 1..]), col, '\n');
    }
  }

  function Together(a: string, b: string): string { a + b }

  /** Two lines made one take the newline between them out of the text. */
  lemma {:induction false} JoinLines(t: seq<Line>, row: nat, l: Line)
    requires row + 1 < |t| && l == Together(t[row], t[row + 1])
    ensures Offset(t, row, |t[row]|) < |Joined(t)|
    ensures Joined(t[..row] + [l] + t[row + 2..]) == Removed(Joined(t), Offset(t, row, |t[row]|))
  {
    hide Joined, Before, After, Offset;
    var a, b := t[..row], t[row + 2..];
    assert t == a + [t[row], t[row + 1]] + b;
    JoinedMiddle(a, [t[row], t[row + 1]], b);
    JoinTwo(t[row], t[row + 1]);
    JoinedMiddle(a, [l], b);
    JoinOne(l);
    OffsetBefore(t, row, |t[row]|);
    RemoveMiddle(Before(a), t[row] + ['\n'] + t[row + 1], After(b), |t[row]|);
  }

  /** The lengths of the text and of a line replaced. */
  lemma {:induction false} ShortenedBy(t: seq<Line>, row: nat, l: Line)
    requires row + 1 < |t|
    ensures |Joined(t[..row] + [l] + t[row + 2..])| == |Joined(t)| - |t[row]| - 1 - |t[row + 1]| + |l|
  {
    hide Joined, Before, After;
    var a, b := t[..row], t[row + 2..];
    assert t == a + [t[row], t[row + 1]] + b;
    JoinedMiddle(a, [t[row], t[row + 1]], b);
    JoinTwo(t[row], t[row + 1]);
    JoinedMiddle(a, [l], b);
    JoinOne(l);
  }

  /** Merging a line into the one above removes exactly the newline between them, if and only
      if the two fit one line buffer; otherwise characters are lost, or nothing happens. */
  lemma {:induction false} MergeText(t: seq<Line>, row: nat)
    requires 0 < row < |t|
    ensures Offset(t, row - 1, |t[row - 1]|) < |Joined(t)|
    ensures Joined(Merge(t, row)) == Removed(Joined(t), Offset(t, row - 1, |t[row - 1]|))
            <==> |t[row - 1]| + |t[row]| <= LINE_LEN - 2
  {
    hide Joined, Offset;
    var prev, cur := t[row - 1], t[row];
    OffsetInside(t, row - 1, |prev|);
    if |prev| + |cur| + 1 < LINE_LEN {
      JoinLines(t, row - 1, prev + cur);
    } else if CanMerge(t, row) {
      ShortenedBy(t, row - 1, prev + cur[..LINE_LEN - 2 - |prev|]);
    }
  }

  lemma {:induction false} OffsetInside(t: seq<Line>, row: nat, col: nat)
    requires row < |t| && col <= |t[row]|
    ensures Offset(t, row, col) <= |Joined(t)|
    ensures col < |t[row]| || row + 1 < |t| ==> Offset(t, row, col) < |Joined(t)|
  {
    SplitAt(t, row);
    OffsetBefore(t, row, col);
    if row + 1 < |t| { assert After(t[row + 1..]) == ['\n'] + t[row + 1] + After(t[row + 1..][1..]); }
  }

  /** Deleting inside a line removes the character at the cursor. */
  lemma {:induction false} DeleteText(t: seq<Line>, row: nat, col: nat)
    requires row < |t| && col < |t[row]|
    ensures Offset(t, row, col) < |Joined(t)|
    ensures Joined(Delete(t, row, col)) == Removed(Joined(t), Offset(t, row, col))
  {
    hide Joined, Before, After, Offset;
    SplitAt(t, row);
    OffsetBefore(t, row, col);
    var l: Line := t[row][..col] + t[row][col + 1..];
    var r := t[row := l];
    assert r == t[..row] + [l] + t[row + 1..];
    JoinedMiddle(t[..row], [l], t[row + 1..]);
    JoinOne(l);
    RemoveMiddle(Before(t[..row]), t[row], After(t[row + 1..]), col);
  }

  /** Deleting at the end of a line removes exactly the newline, if and only if the next line
      fits behind it or is empty; otherwise the next line is lost. */
  lemma {:induction false} DeleteAtEnd(t: seq<Line>, row: nat)
    requires row + 1 < |t|
    ensures Offset(t, row, |t[row]|) < |Joined(t)|
    ensures Joined(Delete(t, row, |t[row]|)) == Removed(Joined(t), Offset(t, row, |t[row]|))
            <==> |t[row]| + |t[row + 1]| <= LINE_LEN - 2 || t[row + 1] == []
  {
    hide Joined, Offset;
    OffsetInside(t, row, |t[row]|);
    var line, next := t[row], t[row + 1];
    if |line| + |next| + 1 < LINE_LEN {
      JoinLines(t, row, line + next);
    } else if next == [] {
      assert line + next == line;
      JoinLines(t, row, line);
    } else {
      ShortenedBy(t, row, line);
    }
  }

  /** Deleting at the very end of the text does nothing. */
  lemma {:induction false} DeleteAtBottom(t: seq<Line>)
    requires t != []
    ensures Delete(t, |t| - 1, |t[|t| - 1]|) == t
  {
  }

  /** A full line takes no character and a full buffer no line. */
  lemma {:induction false} FullStays(t: seq<Line>, row: nat, col: nat, c: char)
    requires row < |t| && col <= |t[row]| && c != '\0' && c != '\n'
    ensures |t[row]| > LINE_LEN - 2 ==> Insert(t, row, col, c) == t
    ensures |t| >= MAX_LINES ==> Split(t, row, col) == t
  {
  }

  /** A key in the text: a character or newline goes in at the cursor, one comes out before
      or behind it, or the text stays, whenever the result fits the limits. */
  lemma {:induction false} PressText(e: Editor, k: Key)
    requires Placed(e) && (k.Typed? ==> Printable(k.c))
    ensures var (t, at) := (Joined(e.text), Offset(e.text, e.row, e.col));
            var u := Joined(Press(e, k).text);
            var line := |e.text[e.row]|;
            && at <= |t|
            && (k.Typed? && line <= LINE_LEN - 2 ==> u == Inserted(t, at, k.c))
            && (k.Enter? && |e.text| < MAX_LINES ==> u == Inserted(t, at, '\n'))
            && (k.Backspace? && e.col > 0 ==> at > 0 && u == Removed(t, at - 1))
            && (k.Backspace? && e.col == 0 && e.row > 0 && |e.text[e.row - 1]| + line <= LINE_LEN - 2 ==>
                  at > 0 && u == Removed(t, at - 1))
            && (k.Del? && e.col < line ==> at < |t| && u == Removed(t, at))
            && (k.Del? && e.col == line && e.row + 1 < |e.text| && line + |e.text[e.row + 1]| <= LINE_LEN - 2 ==>
                  at < |t| && u == Removed(t, at))
            && (k.Typed? && line > LINE_LEN - 2 ==> u == t)
            && (k.Enter? && |e.text| >= MAX_LINES ==> u == t)
            && (k.Backspace? && e.col == 0 && e.row == 0 ==> u == t)
            && (k.Del? && e.col == line && e.row + 1 == |e.text| ==> u == t)
            && (k.Up? || k.Down? || k.Left? || k.Right? || k.Home? || k.End? ==> u == t)
  {
    hide Joined, Offset, Insert, Split, Merge, Delete, Spaces, Clamped, Shown;
    OffsetInside(e.text, e.row, e.col);
    PressedText(e, k);
    match k
    case Typed(c) => InsertText(e.text, e.row, e.col, c); FullStays(e.text, e.row, e.col, c);
    case Enter => SplitText(e.text, e.row, e.col); FullStays(e.text, e.row, e.col, 'x');
    case Backspace =>
      if e.col > 0 {
        DeleteText(e.text, e.row, e.col - 1);
        OffsetStep(e.text, e.row, e.col);
      } else if e.row > 0 {
        MergeText(e.text, e.row);
        OffsetRow(e.text, e.row);
      }
    case Del =>
      if e.col < |e.text[e.row]| { DeleteText(e.text, e.row, e.col); }
      else if e.row + 1 < |e.text| { DeleteAtEnd(e.text, e.row); }
      else { DeleteAtBottom(e.text); }
    case _ =>
  }

  lemma {:induction false} OffsetStep(t: seq<Line>, row: nat, col: nat)
    requires row < |t| && col > 0
    ensures Offset(t, row, col) == Offset(t, row, col - 1) + 1
  {
    OffsetBefore(t, row, col);
    OffsetBefore(t, row, col - 1);
  }

  lemma {:induction false} OffsetRow(t: seq<Line>, row: nat)
    requires 0 < row < |t|
    ensures Offset(t, row, 0) == Offset(t, row - 1, |t[row - 1]|) + 1
  {
    if row > 1 { OffsetRow(t[1..], row - 1); }
  }

  /** The text after a key, without the cursor. */
  lemma {:induction false} PressedText(e: Editor, k: Key)
    requires Placed(e) && (k.Typed? ==> Printable(k.c))
    ensures Press(e, k).text
            == match k
               case Del => Delete(e.text, e.row, e.col)
               case Enter => Split(e.text, e.row, e.col)
               case Backspace =>
                 if e.col > 0 then Delete(e.text, e.row, e.col - 1)
                 else if e.row > 0 then Merge(e.text, e.row) else e.text
               case Tab => Spaces(e.text, e.row, e.col, 4)
               case Typed(c) => Insert(e.text, e.row, e.col, c)
               case _ => e.text
  {
    hide Insert, Split, Delete, Spaces;
  }

  /** A tab puts in four spaces when the line has room for them. */
  lemma {:induction false} TabText(t: seq<Line>, row: nat, col: nat, n: nat)
    requires row < |t| && col <= |t[row]| && |t[row]| + n <= LINE_LEN - 1
    ensures Offset(t, row, col) <= |Joined(t)|
    ensures Joined(Spaces(t, row, col, n))
            == Joined(t)[..Offset(t, row, col)] + seq(n, _ => ' ') + Joined(t)[Offset(t, row, col)..]
    decreases n
  {
    hide Joined, Offset;
    OffsetInside(t, row, col);
    var s, at := Joined(t), Offset(t, row, col);
    if n > 0 {
      InsertText(t, row, col, ' ');
      var u := Insert(t, row, col, ' ');
      OffsetSame(t, u, row, col);
      TabText(u, row, col, n - 1);
      var v := Inserted(s, at, ' ');
      assert v[..at] == s[..at] && v[at..] == [' '] + s[at..];
      assert seq(n, _ => ' ') == seq(n - 1, _ => ' ') + [' '];
    } else {
      assert s[..at] + s[at..] == s;
    }
  }

  lemma {:induction false} OffsetSame(t: seq<Line>, u: seq<Line>, row: nat, col: nat)
    requires row < |t| && row < |u| && t[..row] == u[..row]
    ensures Offset(t, row, col) == Offset(u, row, col)
  {
    OffsetBefore(t, row, col);
    OffsetBefore(u, row, col);
  }
}
