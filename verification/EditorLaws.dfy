/**
 What the editor's keys do at its limits, in numbers: lines of 199 characters, 2048 lines, 21
 rows on the screen.
 */
module EditorLaws {
  import opened Common
  import opened EditorText

  /** A character goes in while the line has at most 198. */
  lemma {:induction false} TypeLimit(t: seq<Line>, row: nat, col: nat, c: char)
    requires row < |t| && col <= |t[row]| && c != '\0' && c != '\n'
    ensures |Insert(t, row, col, c)| == |t|
    ensures Joined(Insert(t, row, col, c)) != Joined(t) <==> |t[row]| <= 198
    ensures |Insert(t, row, col, c)[row]| == Min(|t[row]| + 1, Max(199, |t[row]|))
  {
    hide Joined, Offset;
    InsertText(t, row, col, c);
  }

  /** A line is split while there are fewer than 2048. */
  lemma {:induction false} SplitLimit(t: seq<Line>, row: nat, col: nat)
    requires row < |t| <= 2048 && col <= |t[row]|
    ensures |Split(t, row, col)| == Min(|t| + 1, 2048)
    ensures Joined(Split(t, row, col)) != Joined(t) <==> |t| < 2048
  {
    hide Joined, Offset;
    SplitText(t, row, col);
  }

  /** A line replaced by another, and one taken away: the text around them stays. */
  lemma {:induction false} TwoMadeOne(t: seq<Line>, row: nat, l: Line)
    requires row + 1 < |t|
    ensures Joined(t) == Before(t[..row]) + (t[row] + ['\n'] + t[row + 1]) + After(t[row + 2..])
    ensures Joined(t[..row] + [l] + t[row + 2..]) == Before(t[..row]) + l + After(t[row + 2..])
  {
    hide Joined, Before, After;
    var a, b := t[..row], t[row + 2..];
    assert t == a + [t[row], t[row + 1]] + b;
    JoinedMiddle(a, [t[row], t[row + 1]], b);
    JoinTwo(t[row], t[row + 1]);
    JoinedMiddle(a, [l], b);
    JoinOne(l);
  }

  /** Merging into the line above keeps at most 198 characters of the two, the first ones, and
      drops the rest of the lower line without notice; when the upper line has 198 already and
      the lower one is not empty, or the upper one is full, nothing happens. */
  lemma {:induction false} MergeLoses(t: seq<Line>, row: nat)
    requires 0 < row < |t|
    ensures var (above, below) := (Before(t[..row - 1]), After(t[row + 1..]));
            var (prev, cur) := (t[row - 1], t[row]);
            && Joined(t) == above + (prev + ['\n'] + cur) + below
            && (|prev| + |cur| <= 198 ==> Joined(Merge(t, row)) == above + (prev + cur) + below)
            && (|prev| + |cur| > 198 && |prev| <= 197 ==> Joined(Merge(t, row)) == above + (prev + cur)[..198] + below)
            && (|prev| + |cur| > 198 && |prev| > 197 ==> Merge(t, row) == t)
  {
    hide Joined, Before, After;
    var prev, cur := t[row - 1], t[row];
    if |prev| + |cur| <= 198 {
      TwoMadeOne(t, row - 1, prev + cur);
    } else if |prev| <= 197 {
      var l: Line := prev + cur[..198 - |prev|];
      assert l == (prev + cur)[..198];
      TwoMadeOne(t, row - 1, l);
    } else {
      TwoMadeOne(t, row - 1, prev);
    }
  }

  /** Deleting at the end of a line brings up the next one when both fit in 198 characters;
      otherwise the next line is lost whole. */
  lemma {:induction false} DeleteLoses(t: seq<Line>, row: nat)
    requires row + 1 < |t|
    ensures var (above, below) := (Before(t[..row]), After(t[row + 2..]));
            var (line, next) := (t[row], t[row + 1]);
            && Joined(t) == above + (line + ['\n'] + next) + below
            && Joined(Delete(t, row, |line|)) == above + (if |line| + |next| <= 198 then line + next else line) + below
  {
    hide Joined, Before, After;
    var line, next := t[row], t[row + 1];
    TwoMadeOne(t, row, if |line| + |next| <= 198 then line + next else line);
  }

  /** A tab puts in as many of its four spaces as the line takes, up to 199 characters. */
  lemma {:induction false} TabLimit(t: seq<Line>, row: nat, col: nat, n: nat)
    requires row < |t| && col <= |t[row]|
    ensures var room := Min(n, 199 - |t[row]|);
            && Spaces(t, row, col, n)[row] == t[row][..col] + seq(room, _ => ' ') + t[row][col..]
            && |Spaces(t, row, col, n)| == |t|
            && forall r :: 0 <= r < |t| && r != row ==> Spaces(t, row, col, n)[r] == t[r]
    decreases n
  {
    var line := t[row];
    if n > 0 {
      var u := Insert(t, row, col, ' ');
      TabLimit(u, row, col, n - 1);
      if |line| <= 198 {
        var room := Min(n, 199 - |line|);
        assert u[row] == line[..col] + [' '] + line[col..];
        assert u[row][..col] == line[..col] && u[row][col..] == [' '] + line[col..];
        assert seq(room, _ => ' ') == seq(room - 1, _ => ' ') + [' '];
      }
    } else {
      assert line == line[..col] + [] + line[col..];
    }
  }

  /** Where the cursor stands after a key that moves it. */
  lemma {:induction false} CursorMoved(e: Editor, k: Key)
    requires Placed(e) && (k.Typed? ==> Printable(k.c))
    ensures var (row, col) := (Press(e, k).row, Press(e, k).col);
            var (line, last) := (|e.text[e.row]|, |e.text| - 1);
            && (k.Up? ==> row == Max(e.row - 1, 0) && col == Min(e.col, |e.text[row]|))
            && (k.Down? ==> row == Min(e.row + 1, last) && col == Min(e.col, |e.text[row]|))
            && (k.Left? ==> row == e.row && col == Max(e.col - 1, 0))
            && (k.Right? ==> row == e.row && col == Min(e.col + 1, line))
            && (k.Home? ==> row == e.row && col == 0)
            && (k.End? ==> row == e.row && col == line)
            && (k.Del? ==> row == e.row && col == e.col)
  {
    hide Spaces, Delete, Merge, Split, Insert, CanMerge;
  }

  /** And after one that changes the text. */
  lemma {:induction false} CursorEdited(e: Editor, k: Key)
    requires Placed(e) && (k.Typed? ==> Printable(k.c))
    ensures var (row, col) := (Press(e, k).row, Press(e, k).col);
            var (line, last, above) := (|e.text[e.row]|, |e.text| - 1, if e.row > 0 then |e.text[e.row - 1]| else 0);
            && (k.Enter? ==> row == (if last < 2047 then e.row + 1 else Min(e.row + 1, last)) && col == 0)
            && (k.Backspace? && e.col > 0 ==> row == e.row && col == e.col - 1)
            && (k.Backspace? && e.col == 0 && e.row > 0 && (above <= 197 || above + line <= 198) ==> row == e.row - 1 && col == above)
            && (k.Backspace? && e.col == 0 && !(e.row > 0 && (above <= 197 || above + line <= 198)) ==> row == e.row && col == 0)
            && (k.Tab? ==> row == e.row && col == Min(e.col + 4, Min(line + 4, 199)))
            && (k.Typed? ==> row == e.row && col == Min(e.col + 1, Min(line + 1, 199)))
  {
    hide Spaces, Delete, Merge, Split, Insert;
    match k
    case Enter => SplitRows(e.text, e.row, e.col);
    case Backspace =>
      if e.col > 0 {
        DeleteCount(e.text, e.row, e.col - 1);
        DeletedLength(e.text, e.row, e.col - 1);
      } else if e.row > 0 {
        MergedRow(e.text, e.row);
      }
    case Tab => TabLimit(e.text, e.row, e.col, 4);
    case Typed(c) => TypeLimit(e.text, e.row, e.col, c);
    case _ =>
  }

  lemma {:induction false} SplitRows(t: seq<Line>, row: nat, col: nat)
    requires row < |t| <= 2048 && col <= |t[row]|
    ensures |Split(t, row, col)| == if |t| < 2048 then |t| + 1 else |t|
  {
  }

  lemma {:induction false} MergedRow(t: seq<Line>, row: nat)
    requires 0 < row < |t|
    ensures row <= |Merge(t, row)| && |Merge(t, row)[row - 1]| >= |t[row - 1]|
  {
  }

  lemma {:induction false} DeletedLength(t: seq<Line>, row: nat, col: nat)
    requires row < |t| && col < |t[row]|
    ensures |Delete(t, row, col)| == |t| && |Delete(t, row, col)[row]| == |t[row]| - 1
  {
  }

  /** After each key the window has scrolled no further than it must to show the cursor on one
      of its 21 rows. */
  lemma {:induction false} ScrollsLeast(e: Editor, k: Key)
    requires Placed(e) && e.top >= 0 && (k.Typed? ==> Printable(k.c))
    ensures var u := Press(e, k);
            && u.top <= u.row <= u.top + 20
            && u.top == (if u.row < e.top then u.row else if u.row > e.top + 20 then u.row - 20 else e.top)
  {
    hide Spaces, Delete, Split, Merge, Insert, Clamped, CanMerge;
    PressPlacedAt(e, k);
  }

  /** Every key ends by showing the cursor of an editor whose window has not moved yet. */
  lemma {:induction false} PressPlacedAt(e: Editor, k: Key)
    requires Placed(e) && (k.Typed? ==> Printable(k.c))
    ensures exists u: Editor {:trigger Shown(u)} :: u.top == e.top && 0 <= u.row && Press(e, k) == Shown(u)
  {
    hide Spaces, Delete, Split, Merge, Insert, CanMerge, Shown;
    match k
    case Up => assert Press(e, k) == Shown(Clamped(e.(row := e.row - 1)));
    case Down => assert Press(e, k) == Shown(Clamped(e.(row := e.row + 1)));
    case Left => assert Press(e, k) == Shown(Clamped(e.(col := e.col - 1)));
    case Right => assert Press(e, k) == Shown(Clamped(e.(col := e.col + 1)));
    case Home => assert Press(e, k) == Shown(e.(col := 0));
    case End => assert Press(e, k) == Shown(e.(col := |e.text[e.row]|));
    case Del => assert Press(e, k) == Shown(e.(text := Delete(e.text, e.row, e.col)));
    case Enter =>
      SplitCount(e.text, e.row, e.col);
      assert Press(e, k) == Shown(Clamped(e.(text := Split(e.text, e.row, e.col), row := e.row + 1, col := 0)));
    case Backspace =>
      if e.col > 0 {
        DeleteCount(e.text, e.row, e.col - 1);
        assert Press(e, k) == Shown(Clamped(e.(text := Delete(e.text, e.row, e.col - 1), col := e.col - 1)));
      } else if e.row > 0 && CanMerge(e.text, e.row) {
        MergeCount(e.text, e.row);
        assert Press(e, k)
            == Shown(Clamped(e.(text := Merge(e.text, e.row), row := e.row - 1, col := |e.text[e.row - 1]|)));
      } else {
        assert Press(e, k) == Shown(Clamped(e));
      }
    case Tab => assert Press(e, k) == Shown(Clamped(e.(text := Spaces(e.text, e.row, e.col, 4), col := e.col + 4)));
    case Typed(c) => assert Press(e, k) == Shown(Clamped(e.(text := Insert(e.text, e.row, e.col, c), col := e.col + 1)));
  }

  /** The characters a key can type run from the space to the tilde. */
  lemma {:induction false} Typable(c: char)
    ensures Printable(c) <==> ' ' <= c <= '~'
  {
  }
}
