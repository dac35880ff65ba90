/**
 Line drawing on the 80 by 25 text screen: an integer error term keeps the pen within half a
 cell of the ideal line.
 */
module Line {
  import opened Common

  const WIDTH: int := 80
  const HEIGHT: int := 25
  const CELLS: nat := 2000

  /** A cell of the screen: glyph in the low byte, colour in the high byte. */
  type Cell = x: nat | x < 0x1_0000

  // ---- plotting ----

  /** `g_entry`: a glyph above 127 is a negative character, and its sign fills the byte of
      the colour. */
  function Entry(glyph: byte, color: byte): (c: Cell) {
    if glyph >= 0x80 then 0xFF00 + glyph else 256 * (color as int) + glyph
  }

  predicate OnScreen(x: int, y: int) { 0 <= x < WIDTH && 0 <= y < HEIGHT }

  function CellOf(x: int, y: int): (i: nat)
    requires OnScreen(x, y)
    ensures i < CELLS
  {
    y * WIDTH + x
  }

  /** `plot_raw`: off the screen nothing; a blank cell becomes a block. */
  function Plotted(screen: seq<Cell>, x: int, y: int, color: byte): (r: seq<Cell>)
    requires |screen| == CELLS
    ensures |r| == CELLS
  {
    if !OnScreen(x, y) then screen
    else
      var glyph := screen[CellOf(x, y)] % 256;
      screen[CellOf(x, y) := Entry(if glyph == 0x20 then 0xDB else glyph, color)]
  }

  // ---- the pen ----

  /** The slope of a line: distances and directions. */
  datatype Slope = Slope(dx: nat, dy: nat, sx: int, sy: int)

  /** The pen, the error term, and how often it moved each way. */
  datatype Pen = Pen(x: int, y: int, err: int, i: nat, j: nat)

  function SlopeOf(x0: int, y0: int, x1: int, y1: int): Slope {
    Slope(Abs(x1 - x0), Abs(y1 - y0), if x0 < x1 then 1 else -1, if y0 < y1 then 1 else -1)
  }

  /** One round of the loop of `grid_line`: both tests look at the old error. */
  function Next(p: Pen, s: Slope): Pen {
    var mx, my := 2 * p.err + s.dy > 0, 2 * p.err < s.dx;
    Pen(if mx then p.x + s.sx else p.x, if my then p.y + s.sy else p.y,
        p.err - (if mx then s.dy else 0) + (if my then s.dx else 0),
        if mx then p.i + 1 else p.i, if my then p.j + 1 else p.j)
  }

  function PenAt(x0: int, y0: int, s: Slope, k: nat): Pen {
    if k == 0 then Pen(x0, y0, s.dx - s.dy, 0, 0) else Next(PenAt(x0, y0, s, k - 1), s)
  }

  function Major(s: Slope): nat { Max(s.dx, s.dy) }

  /** How far the pen is from the ideal line, in units of one cell over the longer distance. */
  function Offset(p: Pen, s: Slope): int { p.j * s.dx - p.i * s.dy }

  // ---- half a cell ----

  /** A pen k rounds into the line. */
  predicate Straight(p: Pen, x0: int, y0: int, s: Slope, k: nat) {
    && p.x == x0 + s.sx * p.i && p.y == y0 + s.sy * p.j
    && p.err == Offset(p, s) + s.dx - s.dy
    && 2 * Abs(Offset(p, s)) <= Major(s)
    && (s.dx >= s.dy ==> p.i == k) && (s.dy >= s.dx ==> p.j == k)
  }

  lemma {:induction false} OffsetMoves(p: Pen, s: Slope, a: nat, b: nat)
    requires a <= 1 && b <= 1
    ensures (p.j + b) * s.dx - (p.i + a) * s.dy == Offset(p, s) + b * s.dx - a * s.dy
  {
  }

  /** The two tests, in terms of the offset. */
  lemma {:induction false} Moves(p: Pen, x0: int, y0: int, s: Slope, k: nat)
    requires Straight(p, x0, y0, s, k) && k < Major(s)
    ensures s.dx >= s.dy ==> 2 * p.err + s.dy > 0
    ensures s.dy >= s.dx ==> 2 * p.err < s.dx
  {
    if s.dx == s.dy {
      assert Offset(p, s) == 0 by { assert p.i == p.j; }
    }
  }

  /** Each round moves along the longer distance by one and keeps within half a cell of the
      line. */
  lemma {:induction false} NextStraight(p: Pen, x0: int, y0: int, s: Slope, k: nat)
    requires Straight(p, x0, y0, s, k) && k < Major(s) && Abs(s.sx) == 1 && Abs(s.sy) == 1
    ensures Straight(Next(p, s), x0, y0, s, k + 1)
  {
    hide Offset;
    Moves(p, x0, y0, s, k);
    var mx, my := 2 * p.err + s.dy > 0, 2 * p.err < s.dx;
    var a, b := if mx then 1 else 0, if my then 1 else 0;
    OffsetMoves(p, s, a, b);
    NextOffset(p, s);
  }

  lemma {:induction false} NextOffset(p: Pen, s: Slope)
    ensures var q := Next(p, s);
            && Offset(q, s) == Offset(p, s) + (if 2 * p.err < s.dx then s.dx else 0) - (if 2 * p.err + s.dy > 0 then s.dy else 0)
            && s.sx * q.i == s.sx * p.i + (if 2 * p.err + s.dy > 0 then s.sx else 0)
            && s.sy * q.j == s.sy * p.j + (if 2 * p.err < s.dx then s.sy else 0)
  {
  }

  lemma {:induction false} PenStraight(x0: int, y0: int, s: Slope, k: nat)
    requires k <= Major(s) && Abs(s.sx) == 1 && Abs(s.sy) == 1
    ensures Straight(PenAt(x0, y0, s, k), x0, y0, s, k)
    decreases k
  {
    hide Next;
    if k > 0 {
      PenStraight(x0, y0, s, k - 1);
      NextStraight(PenAt(x0, y0, s, k - 1), x0, y0, s, k - 1);
    }
  }

  // ---- the end ----

  /** Neither coordinate passes its end, and both are there exactly after as many rounds as
      the longer distance. */
  lemma {:induction false} NoOvershoot(p: Pen, x0: int, y0: int, s: Slope, k: nat)
    requires Straight(p, x0, y0, s, k) && k <= Major(s)
    ensures p.i <= s.dx && p.j <= s.dy
    ensures k == Major(s) <==> p.i == s.dx && p.j == s.dy
  {
    if s.dx >= s.dy {
      MinorBound(p.j, s.dx, k, s.dy);
    } else {
      MinorBound(p.i, s.dy, k, s.dx);
    }
  }

  /** j minor moves after k major ones of D, for a minor distance of d. */
  lemma {:induction false} MinorBound(j: nat, D: nat, k: nat, d: nat)
    requires k <= D && d <= D && 2 * Abs(j * D - k * d) <= D
    ensures j <= d || D == 0
    ensures k == D && D > 0 ==> j == d
  {
    if D > 0 {
      MulMono(k, d, D, d);
      if j > d { TooMany(j, D, k * d, d); }
      if k == D && j < d { TooFew(j, D, d); }
    }
  }

  lemma {:induction false} TooMany(j: nat, D: nat, moved: nat, d: nat)
    requires D > 0 && moved <= D * d && j > d
    ensures 2 * (j * D - moved) > D
  {
    MulMono(d + 1, D, j, D);
    assert (d + 1) * D == D * d + D;
  }

  lemma {:induction false} TooFew(j: nat, D: nat, d: nat)
    requires D > 0 && j < d
    ensures 2 * (D * d - j * D) > D
  {
    MulMono(j + 1, D, d, D);
    assert (j + 1) * D == j * D + D;
  }

  /** The line from (x0, y0) to (x1, y1): the pen after k rounds stays within half a cell of
      the ideal line, lies between the ends, and is at the end exactly when k is the longer
      distance. */
  lemma {:induction false} LineRuns(x0: int, y0: int, x1: int, y1: int, k: nat)
    requires k <= Major(SlopeOf(x0, y0, x1, y1))
    ensures var s := SlopeOf(x0, y0, x1, y1);
            var p := PenAt(x0, y0, s, k);
            && 2 * Abs(p.j * s.dx - p.i * s.dy) <= Major(s)
            && p.i <= s.dx && p.j <= s.dy && (p.i == k || p.j == k)
            && Min(x0, x1) <= p.x <= Max(x0, x1) && Min(y0, y1) <= p.y <= Max(y0, y1)
            && (p.x == x1 && p.y == y1 <==> k == Major(s))
            && Abs(2 * p.err) <= 3 * Major(s)
  {
    hide Next;
    var s := SlopeOf(x0, y0, x1, y1);
    var p := PenAt(x0, y0, s, k);
    PenStraight(x0, y0, s, k);
    NoOvershoot(p, x0, y0, s, k);
    Ends(p, x0, y0, x1, y1, s, k);
  }

  lemma {:induction false} Ends(p: Pen, x0: int, y0: int, x1: int, y1: int, s: Slope, k: nat)
    requires s == SlopeOf(x0, y0, x1, y1) && Straight(p, x0, y0, s, k) && p.i <= s.dx && p.j <= s.dy
    ensures Min(x0, x1) <= p.x <= Max(x0, x1) && Min(y0, y1) <= p.y <= Max(y0, y1)
    ensures p.x == x1 <==> p.i == s.dx
    ensures p.y == y1 <==> p.j == s.dy
  {
    hide Offset, Major;
    assert s.sx * p.i == if s.sx == 1 then p.i else 0 - p.i;
    assert s.sy * p.j == if s.sy == 1 then p.j else 0 - p.j;
  }

  /** The values the code keeps in 32-bit variables fit them when the distances are at most
      715827882. */
  lemma {:induction false} NoOverflow(x0: int, y0: int, x1: int, y1: int, k: nat)
    requires Major(SlopeOf(x0, y0, x1, y1)) <= 715_827_882 && k <= Major(SlopeOf(x0, y0, x1, y1))
    ensures Abs(2 * PenAt(x0, y0, SlopeOf(x0, y0, x1, y1), k).err) <= 2_147_483_647
  {
    hide PenAt;
    LineRuns(x0, y0, x1, y1, k);
  }

  // ---- a cell ----

  /** A point changes the cell 80 * y + x of the 2000, when x is one of 80 columns and y one of
      25 rows, and nothing else: a blank there turns into a block, any other glyph stays, and a
      glyph below 128 gets the colour. */
  lemma {:induction false} PlotLaw(screen: seq<Cell>, x: int, y: int, color: byte, k: nat)
    requires |screen| == CELLS && k < 2000
    ensures |Plotted(screen, x, y, color)| == 2000
    ensures var (was, now) := (screen[k], Plotted(screen, x, y, color)[k]);
            if 0 <= x < 80 && 0 <= y < 25 && k == 80 * y + x
            then && now % 256 == (if was % 256 == 32 then 219 else was % 256)
                 && now / 256 == (if now % 256 < 128 then color as int else 255)
            else now == was
  {
    if OnScreen(x, y) { EntryReads(if screen[CellOf(x, y)] % 256 == 0x20 then 0xDB else screen[CellOf(x, y)] % 256, color); }
  }

  // ---- drawing ----

  /** The screen after the first n points of a line. */
  function Drawn(screen: seq<Cell>, x0: int, y0: int, s: Slope, n: nat, color: byte): (r: seq<Cell>)
    requires |screen| == CELLS
    ensures |r| == CELLS
  {
    if n == 0 then screen
    else
      var p := PenAt(x0, y0, s, n - 1);
      Plotted(Drawn(screen, x0, y0, s, n - 1, color), p.x, p.y, color)
  }

  /** Cells the pen never stood on keep their contents; the others show a glyph, the old one
      or a block for a blank. */
  lemma {:induction false} DrawnAt(screen: seq<Cell>, x0: int, y0: int, s: Slope, n: nat, color: byte, x: int, y: int)
    requires |screen| == CELLS && OnScreen(x, y)
    ensures var was := screen[CellOf(x, y)];
            var now := Drawn(screen, x0, y0, s, n, color)[CellOf(x, y)];
            if exists k :: 0 <= k < n && PenAt(x0, y0, s, k).x == x && PenAt(x0, y0, s, k).y == y
            then now == Entry(if was % 256 == 0x20 then 0xDB else was % 256, color)
            else now == was
  {
    hide PenAt;
    if n > 0 {
      DrawnAt(screen, x0, y0, s, n - 1, color, x, y);
      var p := PenAt(x0, y0, s, n - 1);
      if OnScreen(p.x, p.y) && CellOf(p.x, p.y) == CellOf(x, y) {
        assert p.x == x && p.y == y;
      }
      if exists k :: 0 <= k < n && PenAt(x0, y0, s, k).x == x && PenAt(x0, y0, s, k).y == y {
        var k :| 0 <= k < n && PenAt(x0, y0, s, k).x == x && PenAt(x0, y0, s, k).y == y;
        if k == n - 1 { assert p.x == x && p.y == y; }
      }
    }
  }

  /** The glyph of a plotted cell, read back, is the glyph that was put there; its colour is
      kept exactly for glyphs below 128. */
  lemma {:induction false} EntryReads(glyph: byte, color: byte)
    ensures Entry(glyph, color) % 256 == glyph
    ensures Entry(glyph, color) / 256 == color <==> glyph < 0x80 || color == 0xFF
  {
  }

  class Screen {
    const mem: array<Cell>

    ghost predicate Valid() { mem.Length == CELLS }

    constructor ()
      ensures Valid() && fresh(mem)
    {
      mem := new Cell[CELLS](_ => 0x20);
    }

    /** `plot_raw` */
    method PlotRaw(x: int, y: int, color: byte)
      requires Valid()
      modifies mem
      ensures mem[..] == Plotted(old(mem[..]), x, y, color)
    {
      if x < 0 || y < 0 || x >= WIDTH || y >= HEIGHT { return; }
      var i := y * WIDTH + x;
      var ch := mem[i] % 256;
      if ch == 0x20 { ch := 0xDB; }
      mem[i] := Entry(ch, color);
    }

    /** `grid_line`: it ends for all endpoints, having plotted one point more than the longer
        distance. */
    method GridLine(x0: int, y0: int, x1: int, y1: int, color: byte) returns (points: nat)
      requires Valid()
      modifies mem
      ensures var s := SlopeOf(x0, y0, x1, y1);
              points == Major(s) + 1 && mem[..] == Drawn(old(mem[..]), x0, y0, s, points, color)
    {
      hide PenAt, Plotted;
      var dx, dy := x1 - x0, y1 - y0;
      if dx < 0 { dx := -dx; }
      if dy < 0 { dy := -dy; }
      var sx, sy := if x0 < x1 then 1 else -1, if y0 < y1 then 1 else -1;
      var x, y, err := x0, y0, dx - dy;
      ghost var s := SlopeOf(x0, y0, x1, y1);
      points := 0;
      FirstPen(x0, y0, s);
      while true
        invariant points <= Major(s)
        invariant PenAt(x0, y0, s, points).x == x && PenAt(x0, y0, s, points).y == y && PenAt(x0, y0, s, points).err == err
        invariant mem[..] == Drawn(old(mem[..]), x0, y0, s, points, color)
        decreases Major(s) - points
      {
        LineRuns(x0, y0, x1, y1, points);
        PlotRaw(x, y, color);
        points := points + 1;
        if x == x1 && y == y1 { break; }
        NextPen(x0, y0, s, points);
        var e2 := err * 2;
        if e2 > -dy {
          err := err - dy;
          x := x + sx;
        }
        if e2 < dx {
          err := err + dx;
          y := y + sy;
        }
      }
    }
  }

  lemma {:induction false} FirstPen(x0: int, y0: int, s: Slope)
    ensures PenAt(x0, y0, s, 0) == Pen(x0, y0, s.dx - s.dy, 0, 0)
  {
  }

  lemma {:induction false} NextPen(x0: int, y0: int, s: Slope, k: nat)
    requires k > 0
    ensures PenAt(x0, y0, s, k) == Next(PenAt(x0, y0, s, k - 1), s)
  {
  }
}
