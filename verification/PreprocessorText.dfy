/**
 Sources written out for the preprocessor, and what a tower of conditionals deeper than its
 stack prints.
 */
module PreprocessorText {
  import opened Common
  import opened Preprocessor

  // ---- writing a source ----

  /** The lines, each ended by a newline. */
  function Source(lines: seq<string>): string {
    if lines == [] then "" else lines[0] + "\n" + Source(lines[1..])
  }

  /** A line that reaches the directive test as it was written. */
  predicate Clean(line: string) {
    && |line| <= LINE_MAX && Trim(line) == line
    && forall i :: 0 <= i < |line| ==> !EndsLine(line[i])
  }

  lemma {:induction false} LinesThrough(s: string, acc: string, t: string)
    requires |acc| + |s| <= LINE_MAX && forall i :: 0 <= i < |s| ==> !EndsLine(s[i])
    ensures Lines(s + t, acc) == Lines(t, acc + s)
    decreases |s|
  {
    if s == "" {
      assert s + t == t && acc + s == acc;
    } else {
      assert (s + t)[0] == s[0] && (s + t)[1..] == s[1..] + t;
      LinesThrough(s[1..], acc + [s[0]], t);
      assert acc + [s[0]] + s[1..] == acc + s;
    }
  }

  /** Clean lines come back as they were written. */
  lemma {:induction false} LinesOfSource(lines: seq<string>)
    requires forall i :: 0 <= i < |lines| ==> Clean(lines[i])
    ensures Lines(Source(lines), "") == lines
  {
    if lines != [] {
      hide Trim;
      var line, rest := lines[0], "\n" + Source(lines[1..]);
      assert line + "\n" + Source(lines[1..]) == line + rest;
      LinesThrough(line, "", rest);
      assert "" + line == line && rest[1..] == Source(lines[1..]);
      LinesOfSource(lines[1..]);
    }
  }

  /** How a directive is written. */
  function LineOf(k: Kind): string {
    match k
    case Text(line) => line
    case If(expr) => "#IF " + expr
    case Else => "#ELSE"
    case EndIf => "#ENDIF"
    case Include(path) => "#INCLUDE \"" + path + "\""
    case Ignored => "#"
  }

  predicate Writable(k: Kind) {
    match k
    case Text(line) => Clean(line) && (line == "" || line[0] != '#')
    case If(expr) => expr != "" && Clean(expr) && |expr| <= LINE_MAX - 4
    case Include(path) => |path| <= PATH_LEN && forall i :: 0 <= i < |path| ==> path[i] != '\"' && !EndsLine(path[i])
    case _ => true
  }

  lemma {:induction false} TrimEndKeeps(s: string, t: string)
    requires t != "" && !IsBlank(t[|t| - 1]) && t[|t| - 1] != '\r'
    ensures TrimEnd(s + t) == s + t
  {
    assert (s + t)[|s + t| - 1] == t[|t| - 1];
  }

  lemma {:induction false} TrimEndShorter(s: string)
    ensures |TrimEnd(s)| == |s| ==> s == "" || (!IsBlank(s[|s| - 1]) && s[|s| - 1] != '\r')
  {
  }

  lemma {:induction false} CleanEnds(s: string)
    requires s != "" && Trim(s) == s
    ensures !IsBlank(s[0]) && !IsBlank(s[|s| - 1]) && s[|s| - 1] != '\r'
  {
    TrimEndShorter(s);
    assert TrimEnd(s) == s;
  }

  lemma {:induction false} QuotedBack(p: string, t: string, n: nat)
    requires |p| + n <= PATH_LEN && forall i :: 0 <= i < |p| ==> p[i] != '\"'
    ensures Quoted(p + ("\"" + t), n) == p
    decreases |p|
  {
    var s := p + ("\"" + t);
    if p != "" {
      assert s[0] == p[0] && s[1..] == p[1..] + ("\"" + t);
      QuotedBack(p[1..], t, n + 1);
    } else {
      assert s[0] == '\"';
    }
  }

  lemma {:induction false} IfBack(expr: string)
    requires Writable(If(expr))
    ensures Clean(LineOf(If(expr))) && KindOf(LineOf(If(expr))) == If(expr)
  {
    hide TrimEnd;
    CleanEnds(expr);
    var line := "#IF " + expr;
    TrimEndKeeps("#IF ", expr);
    assert line[1..] == "IF " + expr && line[1..][..2] == "IF";
    assert line[1..][2..] == " " + expr && (" " + expr)[1..] == expr;
    assert SkipBlanks(" " + expr) == SkipBlanks(expr) == expr;
  }

  lemma {:induction false} IncludeBack(path: string)
    requires Writable(Include(path))
    ensures Clean(LineOf(Include(path))) && KindOf(LineOf(Include(path))) == Include(path)
  {
    hide TrimEnd, Quoted;
    var line := "#INCLUDE \"" + path + "\"";
    TrimEndKeeps("#INCLUDE \"" + path, "\"");
    QuotedBack(path, "", 0);
    var s := line[1..];
    assert s == "INCLUDE \"" + path + "\"" && s[..7] == "INCLUDE" && s[0] == 'I' && s[1] == 'N';
    assert s[7..] == " \"" + path + "\"" && (" \"" + path + "\"")[1..] == "\"" + path + "\"";
    var p := "\"" + path + "\"";
    assert p[0] == '\"' && p[1..] == path + ("\"" + "");
    assert SkipBlanks(s[7..]) == SkipBlanks(p) == p;
  }

  /** Every directive and text line is read as it was written. */
  lemma {:induction false} KindBack(k: Kind)
    requires Writable(k)
    ensures Clean(LineOf(k)) && KindOf(LineOf(k)) == k
  {
    hide TrimEnd;
    match k
    case Text(line) =>
    case If(expr) => IfBack(expr);
    case Else =>
      TrimEndKeeps("", "#ELSE");
      assert "" + "#ELSE" == "#ELSE" && "#ELSE"[1..] == "ELSE";
    case EndIf =>
      TrimEndKeeps("", "#ENDIF");
      assert "" + "#ENDIF" == "#ENDIF" && "#ENDIF"[1..] == "ENDIF";
      assert "ENDIF"[1] != "ELSE"[1];
    case Include(path) => IncludeBack(path);
    case Ignored =>
      TrimEndKeeps("", "#");
      assert "" + "#" == "#" && "#"[1..] == "";
  }

  function LinesOf(ks: seq<Kind>): (lines: seq<string>)
    ensures |lines| == |ks|
  {
    seq(|ks|, i requires 0 <= i < |ks| => LineOf(ks[i]))
  }

  lemma {:induction false} SourceBack(ks: seq<Kind>)
    requires forall i :: 0 <= i < |ks| ==> Writable(ks[i])
    ensures Kinds(Lines(Source(LinesOf(ks)), "")) == ks
  {
    hide Clean, KindOf, LineOf, Writable;
    forall i | 0 <= i < |ks| ensures Clean(LinesOf(ks)[i]) && KindOf(LinesOf(ks)[i]) == ks[i] { KindBack(ks[i]); }
    LinesOfSource(LinesOf(ks));
  }

  /** A block written out as a source and preprocessed: its text, if it is nested at most 16
      deep. */
  lemma {:induction false} WrittenBlock(fs: Files, b: Block, cap: nat, depth: nat)
    requires cap >= 2 && Nesting(b) <= IF_MAX && forall i :: 0 <= i < |Render(b)| ==> Writable(Render(b)[i])
    ensures Run(fs, Source(LinesOf(Render(b))), cap, depth) == Cut(Meaning(fs, b, depth), cap - 1)
  {
    hide Run, Lines, Kinds, Render, Meaning, Nesting, Writable;
    SourceBack(Render(b));
    RunIsMeaning(fs, Source(LinesOf(Render(b))), b, cap, depth);
  }

  // ---- towers ----

  /** Conditionals one inside the other, with a line behind each #ENDIF. */
  function Tower(conds: seq<string>, lines: seq<string>): Block
    requires |conds| == |lines|
  {
    if conds == [] then Done else When(conds[0], Tower(conds[1..], lines[1..]), Emit(lines[0], Done))
  }

  /** Whether the first k conditions hold. */
  predicate Hold(conds: seq<string>, k: nat)
    requires k <= |conds|
  {
    forall i :: 0 <= i < k ==> EvalIf(conds[i])
  }

  function Ifs(conds: seq<string>): (ks: seq<Kind>)
    ensures |ks| == |conds|
  {
    seq(|conds|, i requires 0 <= i < |conds| => If(conds[i]))
  }

  /** The second half of a tower: from the inside out, each #ENDIF and its line. */
  function Closings(lines: seq<string>): seq<Kind> {
    if lines == [] then [] else [EndIf, Text(lines[|lines| - 1])] + Closings(lines[..|lines| - 1])
  }

  lemma {:induction false} ClosingsFirst(lines: seq<string>)
    requires lines != []
    ensures Closings(lines) == Closings(lines[1..]) + [EndIf, Text(lines[0])]
  {
    if |lines| == 1 {
      assert lines[1..] == [] && lines[..0] == [];
    } else {
      var init := lines[..|lines| - 1];
      ClosingsFirst(init);
      assert init[1..] == lines[1..][..|lines| - 2] && init[0] == lines[0];
      assert lines[1..][|lines| - 2] == lines[|lines| - 1];
      assert Closings(lines[1..]) == [EndIf, Text(lines[|lines| - 1])] + Closings(init[1..]);
    }
  }

  lemma {:induction false} TowerHalves(conds: seq<string>, lines: seq<string>)
    requires |conds| == |lines|
    ensures Render(Tower(conds, lines)) == Ifs(conds) + Closings(lines)
  {
    if conds == [] {
      assert Ifs(conds) == [];
    } else {
      TowerHalves(conds[1..], lines[1..]);
      ClosingsFirst(lines);
      assert Ifs(conds) == [If(conds[0])] + Ifs(conds[1..]);
      assert Render(Emit(lines[0], Done)) == [Text(lines[0])] + [];
    }
  }

  /** What the stack holds after k conditionals: for each one that found room, whether the
      text around it counts. */
  function Saved(conds: seq<string>, k: nat): (s: seq<bool>)
    requires k <= |conds|
    ensures |s| == Min(k, IF_MAX)
  {
    seq(Min(k, IF_MAX), j requires 0 <= j < Min(k, IF_MAX) => Hold(conds, j))
  }

  lemma {:induction false} Opening(fs: Files, conds: seq<string>, k: nat, cap: nat, depth: nat)
    requires cap >= 2 && k <= |conds|
    ensures Fold(fs, State(true, [], ""), Ifs(conds[..k]), cap, depth) == State(Hold(conds, k), Saved(conds, k), "")
  {
    hide EvalIf;
    if k == 0 {
      assert Ifs(conds[..0]) == [];
      assert Saved(conds, 0) == [];
    } else {
      Opening(fs, conds, k - 1, cap, depth);
      assert Ifs(conds[..k]) == Ifs(conds[..k - 1]) + [If(conds[k - 1])];
      FoldAppend(fs, State(true, [], ""), Ifs(conds[..k - 1]), [If(conds[k - 1])], cap, depth);
      var st := State(Hold(conds, k - 1), Saved(conds, k - 1), "");
      FoldOne(fs, st, If(conds[k - 1]), [], cap, depth);
      assert [If(conds[k - 1])] + [] == [If(conds[k - 1])];
      assert k - 1 < IF_MAX ==> Saved(conds, k) == Saved(conds, k - 1) + [Hold(conds, k - 1)];
      assert k - 1 >= IF_MAX ==> Saved(conds, k) == Saved(conds, k - 1);
      assert Hold(conds, k) == (Hold(conds, k - 1) && EvalIf(conds[k - 1]));
    }
  }

  /** The lines of a tower that are printed when line k is printed on `shift` fewer
      conditions than stand around it. */
  function Printed(conds: seq<string>, lines: seq<string>, k: nat, shift: nat): string
    requires k <= |conds| == |lines|
  {
    if k == 0 then ""
    else (if Hold(conds, Max(k - 1 - shift, 0)) then lines[k - 1] + "\n" else "") + Printed(conds, lines, k - 1, shift)
  }

  function Volume(lines: seq<string>): nat {
    if lines == [] then 0 else |lines[|lines| - 1]| + 1 + Volume(lines[..|lines| - 1])
  }

  /** How many conditionals found the stack full. */
  function Excess(n: nat): nat { Max(n - IF_MAX, 0) }

  lemma {:induction false} OneClosing(fs: Files, st: State, line: string, ks: seq<Kind>, cap: nat, depth: nat)
    requires cap >= 2 && |st.out| + |line| + 1 < cap
    ensures var a := if st.stack == [] then st.active else st.stack[|st.stack| - 1];
            var s := if st.stack == [] then [] else st.stack[..|st.stack| - 1];
            Fold(fs, st, [EndIf, Text(line)] + ks, cap, depth)
            == Fold(fs, State(a, s, st.out + (if a then line + "\n" else "")), ks, cap, depth)
  {
    var mid := Step(fs, st, EndIf, cap, depth);
    assert [EndIf, Text(line)] + ks == [EndIf] + ([Text(line)] + ks);
    FoldOne(fs, st, EndIf, [Text(line)] + ks, cap, depth);
    FoldOne(fs, mid, Text(line), ks, cap, depth);
    assert st.out + line + "\n" == st.out + (line + "\n");
    assert st.out + "" == st.out;
    assert Cut(st.out + (line + "\n"), cap - 1) == st.out + (line + "\n");
  }

  /** Closing the last k conditionals: the stack is short by the excess, so every line is
      printed on that many conditions too few. */
  lemma {:induction false} Closing(fs: Files, conds: seq<string>, lines: seq<string>, k: nat, shift: nat, a: bool,
                                   out: string, cap: nat, depth: nat)
    requires cap >= 2 && k <= |conds| == |lines| && k - shift <= IF_MAX
    requires |out| + Volume(lines[..k]) < cap && (k <= shift ==> a)
    ensures Fold(fs, State(a, Saved(conds, Max(k - shift, 0)), out), Closings(lines[..k]), cap, depth).out
            == out + Printed(conds, lines, k, shift)
    decreases k
  {
    hide EvalIf, Step, Fold, Closings, Printed, Hold, Saved, Volume;
    var st := State(a, Saved(conds, Max(k - shift, 0)), out);
    if k == 0 {
      NoClosing(fs, conds, lines, st, shift, cap, depth);
    } else {
      var j := Max(k - 1 - shift, 0);
      ClosingsLast(lines, k);
      HoldNone(conds);
      SavedTop(conds, k, shift, a);
      OneClosing(fs, st, lines[k - 1], Closings(lines[..k - 1]), cap, depth);
      var a' := if k <= shift then a else Hold(conds, j);
      var here := if a' then lines[k - 1] + "\n" else "";
      PrintedLast(conds, lines, k, shift, a');
      Closing(fs, conds, lines, k - 1, shift, a', out + here, cap, depth);
      assert out + here + Printed(conds, lines, k - 1, shift) == out + (here + Printed(conds, lines, k - 1, shift));
    }
  }

  lemma {:induction false} NoClosing(fs: Files, conds: seq<string>, lines: seq<string>, st: State, shift: nat, cap: nat, depth: nat)
    requires cap >= 2 && |conds| == |lines|
    ensures Fold(fs, st, Closings(lines[..0]), cap, depth).out == st.out + Printed(conds, lines, 0, shift)
  {
    assert lines[..0] == [] && st.out + "" == st.out;
  }

  lemma {:induction false} ClosingsLast(lines: seq<string>, k: nat)
    requires 0 < k <= |lines|
    ensures Closings(lines[..k]) == [EndIf, Text(lines[k - 1])] + Closings(lines[..k - 1])
    ensures Volume(lines[..k]) == |lines[k - 1]| + 1 + Volume(lines[..k - 1])
  {
    assert lines[..k][|lines[..k]| - 1] == lines[k - 1] && lines[..k][..k - 1] == lines[..k - 1];
  }

  lemma {:induction false} SavedTop(conds: seq<string>, k: nat, shift: nat, a: bool)
    requires 0 < k <= |conds| && k - shift <= IF_MAX
    ensures k <= shift ==> Saved(conds, Max(k - shift, 0)) == [] && Saved(conds, Max(k - 1 - shift, 0)) == []
    ensures k > shift ==> var s := Saved(conds, k - shift);
                          s != [] && s[|s| - 1] == Hold(conds, k - 1 - shift) && s[..|s| - 1] == Saved(conds, k - 1 - shift)
  {
    hide Hold;
  }

  lemma {:induction false} PrintedLast(conds: seq<string>, lines: seq<string>, k: nat, shift: nat, a: bool)
    requires 0 < k <= |conds| == |lines| && (k <= shift ==> a) && (k > shift ==> a == Hold(conds, k - 1 - shift))
    ensures Printed(conds, lines, k, shift) == (if a then lines[k - 1] + "\n" else "") + Printed(conds, lines, k - 1, shift)
  {
    HoldNone(conds);
    hide Hold;
  }

  lemma {:induction false} HoldNone(conds: seq<string>)
    ensures Hold(conds, 0)
  {
  }

  /** What the preprocessor prints for a tower, whatever its height. */
  lemma {:induction false} TowerPrints(fs: Files, conds: seq<string>, lines: seq<string>, cap: nat, depth: nat)
    requires cap >= 2 && |conds| == |lines| && Volume(lines) < cap
    ensures Fold(fs, State(true, [], ""), Render(Tower(conds, lines)), cap, depth).out
            == Printed(conds, lines, |lines|, Excess(|lines|))
  {
    hide Fold, Closings, Printed, EvalIf, Render, Tower, Hold;
    var n := |conds|;
    TowerHalves(conds, lines);
    FoldAppend(fs, State(true, [], ""), Ifs(conds), Closings(lines), cap, depth);
    Opening(fs, conds, n, cap, depth);
    assert conds[..n] == conds && lines[..n] == lines;
    SavedAll(conds);
    HoldNone(conds);
    Closing(fs, conds, lines, n, Excess(n), Hold(conds, n), "", cap, depth);
    assert "" + Printed(conds, lines, n, Excess(n)) == Printed(conds, lines, n, Excess(n));
  }

  lemma {:induction false} SavedAll(conds: seq<string>)
    ensures Saved(conds, |conds|) == Saved(conds, Max(|conds| - Excess(|conds|), 0))
  {
    hide Hold;
  }

  /** What the tower means: each line on exactly the conditions around it. */
  lemma {:induction false} TowerMeans(fs: Files, conds: seq<string>, lines: seq<string>, depth: nat)
    requires |conds| == |lines|
    ensures Meaning(fs, Tower(conds, lines), depth) == Printed(conds, lines, |lines|, 0)
  {
    hide EvalIf;
    if conds != [] {
      TowerMeans(fs, conds[1..], lines[1..], depth);
      PrintedFirst(conds, lines, |lines|);
      assert Meaning(fs, Emit(lines[0], Done), depth) == lines[0] + "\n" + "";
      assert lines[0] + "\n" + "" == lines[0] + "\n";
    }
  }

  lemma {:induction false} PrintedFirst(conds: seq<string>, lines: seq<string>, k: nat)
    requires 0 < k <= |conds| == |lines|
    ensures Printed(conds, lines, k, 0)
            == (if EvalIf(conds[0]) then Printed(conds[1..], lines[1..], k - 1, 0) else "") + (lines[0] + "\n")
  {
    hide EvalIf;
    if k == 1 {
      assert Printed(conds, lines, 1, 0) == lines[0] + "\n" + Printed(conds, lines, 0, 0);
      assert lines[0] + "\n" + "" == lines[0] + "\n" && "" + (lines[0] + "\n") == lines[0] + "\n";
    } else {
      PrintedFirst(conds, lines, k - 1);
      HoldFirst(conds, k - 1);
      var here := if Hold(conds, k - 1) then lines[k - 1] + "\n" else "";
      var tail := Printed(conds[1..], lines[1..], k - 2, 0);
      assert Printed(conds, lines, k, 0) == here + Printed(conds, lines, k - 1, 0);
      assert Max(k - 2 - 0, 0) == k - 2 && lines[1..][k - 2] == lines[k - 1];
      assert EvalIf(conds[0]) ==> Printed(conds[1..], lines[1..], k - 1, 0) == here + tail;
      assert here + (tail + (lines[0] + "\n")) == here + tail + (lines[0] + "\n");
      assert "" + ("" + (lines[0] + "\n")) == "" + (lines[0] + "\n");
    }
  }

  lemma {:induction false} HoldFirst(conds: seq<string>, k: nat)
    requires 0 < k <= |conds|
    ensures Hold(conds, k) == (EvalIf(conds[0]) && Hold(conds[1..], k - 1))
  {
    hide EvalIf;
    if EvalIf(conds[0]) && Hold(conds[1..], k - 1) {
      forall i | 0 <= i < k ensures EvalIf(conds[i]) { if i > 0 { assert conds[1..][i - 1] == conds[i]; } }
    }
  }

  /** The first k lines are printed alike, with and without the shift. */
  ghost predicate Agree(conds: seq<string>, k: nat, shift: nat)
    requires k <= |conds|
  {
    forall j {:trigger Hold(conds, j)} :: 0 <= j < k ==> Hold(conds, Max(j - shift, 0)) == Hold(conds, j)
  }

  /** Fewer conditions never print less, and print the same only where they agree. */
  lemma {:induction false} ShiftPrintsMore(conds: seq<string>, lines: seq<string>, k: nat, shift: nat)
    requires k <= |conds| == |lines|
    ensures |Printed(conds, lines, k, shift)| >= |Printed(conds, lines, k, 0)|
    ensures Printed(conds, lines, k, shift) == Printed(conds, lines, k, 0)
            <==> Agree(conds, k, shift)
  {
    hide EvalIf, Printed, Hold, Agree;
    AgreeLast(conds, k, shift);
    PrintedMore(conds, lines, k, shift);
    if k > 0 {
      ShiftPrintsMore(conds, lines, k - 1, shift);
      var x, y := Hold(conds, Max(k - 1 - shift, 0)), Hold(conds, k - 1);
      var p, q := Printed(conds, lines, k - 1, shift), Printed(conds, lines, k - 1, 0);
      var line := lines[k - 1] + "\n";
      SameEnd(if x then line else "", p, q);
      assert "" + q == q && "" + p == p;
    }
  }

  lemma {:induction false} AgreeLast(conds: seq<string>, k: nat, shift: nat)
    requires k <= |conds|
    ensures k == 0 ==> Agree(conds, k, shift)
    ensures k > 0 ==> (Agree(conds, k, shift)
                       <==> Agree(conds, k - 1, shift) && Hold(conds, Max(k - 1 - shift, 0)) == Hold(conds, k - 1))
    ensures k > 0 && Hold(conds, k - 1) ==> Hold(conds, Max(k - 1 - shift, 0))
  {
    if k > 0 && Hold(conds, k - 1) { HoldFewer(conds, k - 1, Max(k - 1 - shift, 0)); }
    hide Hold;
  }

  lemma {:induction false} PrintedMore(conds: seq<string>, lines: seq<string>, k: nat, shift: nat)
    requires k <= |conds| == |lines|
    ensures k == 0 ==> Printed(conds, lines, k, shift) == Printed(conds, lines, k, 0)
    ensures k > 0 ==> Printed(conds, lines, k, shift)
                      == (if Hold(conds, Max(k - 1 - shift, 0)) then lines[k - 1] + "\n" else "") + Printed(conds, lines, k - 1, shift)
    ensures k > 0 ==> Printed(conds, lines, k, 0)
                      == (if Hold(conds, k - 1) then lines[k - 1] + "\n" else "") + Printed(conds, lines, k - 1, 0)
  {
    hide Hold;
  }

  lemma {:induction false} SameEnd(a: string, p: string, q: string)
    ensures a + p == a + q <==> p == q
  {
    if a + p == a + q { assert p == (a + p)[|a|..] && q == (a + q)[|a|..]; }
  }

  lemma {:induction false} ChainHolds(conds: seq<string>, n: nat, shift: nat, j: nat)
    requires j < n <= |conds| && shift > 0
    requires Agree(conds, n, shift)
    ensures Hold(conds, j)
    decreases j
  {
    if j > 0 {
      ChainHolds(conds, n, shift, Max(j - shift, 0));
      assert Hold(conds, Max(j - shift, 0)) == Hold(conds, j);
    }
  }

  /** When depth changes the output: a tower prints its text if and only if it is at most 16
      high, or every condition but the innermost holds. */
  lemma {:induction false} TowerExact(fs: Files, conds: seq<string>, lines: seq<string>, cap: nat, depth: nat)
    requires cap >= 2 && |conds| == |lines| && Volume(lines) < cap
    requires forall i :: 0 <= i < |lines| ==> Writable(If(conds[i])) && Writable(Text(lines[i]))
    ensures Run(fs, Source(LinesOf(Render(Tower(conds, lines)))), cap, depth) == Meaning(fs, Tower(conds, lines), depth)
            <==> |conds| <= IF_MAX || Hold(conds, |conds| - 1)
  {
    hide Fold, Lines, Kinds, Render, Tower, Meaning, Printed, Hold, Source, Writable;
    var n := |conds|;
    var ks := Render(Tower(conds, lines));
    TowerWritable(conds, lines);
    SourceBack(ks);
    TowerPrints(fs, conds, lines, cap, depth);
    TowerMeans(fs, conds, lines, depth);
    if n > IF_MAX {
      ShiftPrintsMore(conds, lines, n, Excess(n));
      if Hold(conds, n - 1) {
        AllAgree(conds, n, Excess(n));
      } else if Agree(conds, n, Excess(n)) {
        ChainHolds(conds, n, Excess(n), n - 1);
      }
    }
  }

  lemma {:induction false} AllAgree(conds: seq<string>, n: nat, shift: nat)
    requires 0 < n <= |conds| && Hold(conds, n - 1)
    ensures Agree(conds, n, shift)
  {
    hide EvalIf;
  }

  lemma {:induction false} HoldFewer(conds: seq<string>, n: nat, j: nat)
    requires j <= n <= |conds| && Hold(conds, n)
    ensures Hold(conds, j)
  {
    hide EvalIf;
  }

  lemma {:induction false} TowerWritable(conds: seq<string>, lines: seq<string>)
    requires |conds| == |lines|
    requires forall i :: 0 <= i < |lines| ==> Writable(If(conds[i])) && Writable(Text(lines[i]))
    ensures forall k :: k in Render(Tower(conds, lines)) ==> Writable(k)
  {
    hide Writable;
    if conds != [] {
      TowerWritable(conds[1..], lines[1..]);
      assert Render(Emit(lines[0], Done)) == [Text(lines[0])] + [];
      PlainEnd();
    }
  }

  lemma {:induction false} PlainEnd()
    ensures Writable(EndIf)
  {
  }

  lemma {:induction false} VolumeOfLetters(lines: seq<string>)
    requires forall i :: 0 <= i < |lines| ==> |lines[i]| == 1
    ensures Volume(lines) == 2 * |lines|
  {
    if lines != [] { VolumeOfLetters(lines[..|lines| - 1]); }
  }

  /** Seventeen times `#IF 0`, then seventeen times `#ENDIF` and a line: one line too many is
      printed. */
  lemma {:induction false} SeventeenDiffer(fs: Files, cap: nat, depth: nat)
    requires cap > 34
    ensures var t := Tower(seq(17, _ => "0"), seq(17, _ => "A"));
            Run(fs, Source(LinesOf(Render(t))), cap, depth) != Meaning(fs, t, depth)
  {
    hide Run, Source, LinesOf, Render, Tower, Meaning, Writable, Clean;
    var conds, lines: seq<string> := seq(17, _ => "0"), seq(17, _ => "A");
    VolumeOfLetters(lines);
    ShortWritable();
    TowerExact(fs, conds, lines, cap, depth);
    assert !EvalIf(conds[0]);
  }

  lemma {:induction false} ShortWritable()
    ensures Writable(If("0")) && Writable(Text("A"))
  {
    CleanLetter('0');
    CleanLetter('A');
  }

  lemma {:induction false} CleanLetter(c: char)
    requires !IsBlank(c) && !EndsLine(c)
    ensures Clean([c])
  {
    hide TrimEnd;
    TrimEndKeeps("", [c]);
    assert "" + [c] == [c];
  }
}
