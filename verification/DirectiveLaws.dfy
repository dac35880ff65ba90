/**
 The preprocessor's limits and tests in numbers and literals: what a condition is true of, how
 much of a line and of a path is read, and how deep files include each other.
 */
module DirectiveLaws {
  import opened Common
  import opened Preprocessor
  import opened PreprocessorText

  // ---- conditions ----

  /** A condition that starts with a digit is true unless the digit is 0, whatever follows; any
      other is true exactly when it is one of four words. */
  lemma {:induction false} ConditionIs(expr: string)
    ensures expr != "" && '0' <= expr[0] <= '9' ==> (EvalIf(expr) <==> expr[0] != '0')
    ensures expr == "" || !('0' <= expr[0] <= '9')
            ==> (EvalIf(expr) <==> expr == "TRUE" || expr == "true" || expr == "GRIDOS" || expr == "GRIDOS7")
  {
    assert expr == "1" ==> expr[0] == '1';
    assert "TRUE"[0] == 'T' && "true"[0] == 't' && "GRIDOS"[0] == 'G' && "GRIDOS7"[0] == 'G';
  }

  // ---- lines ----

  /** The part of a line behind its 255th character is dropped. */
  lemma {:induction false} LineCut(s: string, t: string)
    requires forall i :: 0 <= i < |s| ==> !EndsLine(s[i])
    ensures Lines(s + "\n" + t, "") == [Trim(if |s| <= 255 then s else s[..255])] + Lines(t, "")
  {
    hide Trim, Lines;
    var rest := "\n" + t;
    assert s + "\n" + t == s + rest && rest[1..] == t;
    if |s| <= 255 {
      LinesThrough(s, "", rest);
      LineEnds("" + s, t);
      assert "" + s == s;
    } else {
      var a, b := s[..255], s[255..];
      assert s + rest == a + (b + rest);
      LinesThrough(a, "", b + rest);
      assert "" + a == a;
      FullLine(b, a, rest);
      LineEnds(a, t);
    }
  }

  lemma {:induction false} LineEnds(line: string, t: string)
    ensures Lines("\n" + t, line) == [Trim(line)] + Lines(t, "")
  {
    hide Trim;
    assert ("\n" + t)[1..] == t;
  }

  /** A full line buffer takes nothing more. */
  lemma {:induction false} FullLine(s: string, line: string, t: string)
    requires |line| == 255 && forall i :: 0 <= i < |s| ==> !EndsLine(s[i])
    ensures Lines(s + t, line) == Lines(t, line)
  {
    hide Trim;
    if s == "" {
      assert s + t == t;
    } else {
      assert (s + t)[0] == s[0] && (s + t)[1..] == s[1..] + t;
      FullLine(s[1..], line, t);
    }
  }

  // ---- paths ----

  /** A path is read up to its closing quote, but no more than 63 characters of it. */
  lemma {:induction false} PathCut(p: string, t: string, n: nat)
    requires n <= 63 && forall i :: 0 <= i < |p| ==> p[i] != '\"'
    ensures Quoted(p + ("\"" + t), n) == if |p| <= 63 - n then p else p[..63 - n]
    decreases |p|
  {
    var s := p + ("\"" + t);
    if p == "" {
      assert s[0] == '\"';
    } else if n < 63 {
      assert s[0] == p[0] && s[1..] == p[1..] + ("\"" + t);
      PathCut(p[1..], t, n + 1);
      if |p| > 63 - n { assert [p[0]] + p[1..][..62 - n] == p[..63 - n]; }
    } else {
      assert p[..0] == "";
    }
  }

  // ---- inclusion ----

  lemma {:induction false} CStringWhole(s: string)
    requires '\0' !in s
    ensures CString(s) == s
  {
    if s != "" { CStringWhole(s[1..]); }
  }

  /** Including a file that holds a written block of up to 4095 characters prints the block's
      text, cut at 4095, on the four levels below the source; deeper, or when the file is not
      there, is empty or is longer, nothing. */
  lemma {:induction false} IncludePrints(fs: Files, path: string, b: Block, depth: nat)
    requires Nesting(b) <= 16 && forall i :: 0 <= i < |Render(b)| ==> Writable(Render(b)[i])
    requires path in fs ==> fs[path] == Source(LinesOf(Render(b))) && '\0' !in fs[path]
    ensures Included(fs, path, depth)
            == if depth <= 3 && path in fs && 1 <= |fs[path]| <= 4095 then Cut(Meaning(fs, b, depth + 1), 4095) else ""
  {
    hide Run, Render, Meaning, Nesting, Writable, Cut, Source, LinesOf;
    if depth <= 3 && path in fs {
      CStringWhole(fs[path]);
      WrittenBlock(fs, b, 4096, depth + 1);
    }
  }

  function Again(s: string, n: nat): (r: string)
    ensures |r| == n * |s|
  {
    if n == 0 then "" else s + Again(s, n - 1)
  }

  /** A file that prints a line and then includes itself. */
  function Itself(path: string, line: string): Block { Emit(line, Insert(path, Done)) }

  lemma {:induction false} ItselfWritten(path: string, line: string)
    requires Writable(Text(line)) && Writable(Include(path)) && |line| <= 255
    ensures var b := Itself(path, line);
            && Nesting(b) == 0 && (forall i :: 0 <= i < |Render(b)| ==> Writable(Render(b)[i]))
            && Source(LinesOf(Render(b))) == line + "\n" + ("#INCLUDE \"" + path + "\"" + "\n")
            && forall fs, depth: nat {:trigger Meaning(fs, b, depth)} ::
                 Meaning(fs, b, depth) == line + "\n" + Included(fs, path, depth)
  {
    hide Writable, Included;
    var b := Itself(path, line);
    assert Nesting(Insert(path, Done)) == Nesting(Done) == 0;
    assert Render(Insert(path, Done)) == [Include(path)];
    assert Render(b) == [Text(line), Include(path)];
    assert LinesOf(Render(b)) == [line, "#INCLUDE \"" + path + "\""];
    forall i | 0 <= i < |Render(b)| ensures Writable(Render(b)[i]) { assert i == 0 || i == 1; }
    var ls := LinesOf(Render(b));
    assert ls[1..] == ["#INCLUDE \"" + path + "\""] && ls[1..][1..] == [];
    var last := "#INCLUDE \"" + path + "\"";
    assert last + "\n" + "" == last + "\n";
    assert Source(ls[1..]) == last + "\n";
    assert Source(ls) == line + "\n" + Source(ls[1..]);
    forall fs: Files, depth: nat ensures Meaning(fs, b, depth) == line + "\n" + Included(fs, path, depth) {
      assert Meaning(fs, Insert(path, Done), depth) == Included(fs, path, depth) + "";
    }
  }

  /** Files that include themselves stop: the line is printed once for each level left. */
  lemma {:induction false} SelfIncluded(fs: Files, path: string, line: string, depth: nat)
    requires Writable(Text(line)) && Writable(Include(path)) && '\0' !in line && '\0' !in path
    requires path in fs && fs[path] == line + "\n" + ("#INCLUDE \"" + path + "\"" + "\n")
    ensures depth <= 4 ==> Included(fs, path, depth) == Again(line + "\n", 4 - depth)
    ensures depth > 4 ==> Included(fs, path, depth) == ""
    decreases 5 - depth
  {
    hide Run, Render, Meaning, Nesting, Writable, Source, LinesOf;
    var b := Itself(path, line);
    ShortLine(line, path);
    ItselfWritten(path, line);
    IncludePrints(fs, path, b, depth);
    if depth <= 3 {
      SelfIncluded(fs, path, line, depth + 1);
      assert Meaning(fs, b, depth + 1) == line + "\n" + Again(line + "\n", 3 - depth);
      CutNone(Again(line + "\n", 4 - depth), 4 - depth, |line| + 1);
    }
  }

  lemma {:induction false} ShortLine(line: string, path: string)
    requires Writable(Text(line)) && Writable(Include(path))
    ensures |line| <= 255 && |path| <= 63
  {
  }

  lemma {:induction false} CutNone(s: string, n: nat, k: nat)
    requires |s| == n * k && n <= 4 && k <= 256
    ensures Cut(s, 4095) == s
  {
    assert n * k <= 4 * 256;
  }

  /** A source that prints a line and includes such a file prints it five times in all. */
  lemma {:induction false} FivePrinted(fs: Files, path: string, line: string, cap: nat)
    requires Writable(Text(line)) && Writable(Include(path)) && '\0' !in line && '\0' !in path
    requires path in fs && fs[path] == line + "\n" + ("#INCLUDE \"" + path + "\"" + "\n") && cap > 5 * (|line| + 1)
    ensures Run(fs, fs[path], cap, 0) == Again(line + "\n", 5)
  {
    hide Run, Render, Meaning, Nesting, Writable, Source, LinesOf;
    var b := Itself(path, line);
    ShortLine(line, path);
    ItselfWritten(path, line);
    SelfIncluded(fs, path, line, 0);
    WrittenBlock(fs, b, cap, 0);
    assert Meaning(fs, b, 0) == Again(line + "\n", 5);
  }

  /** A tower of conditionals is nested as deep as it is high. */
  lemma {:induction false} TowerNesting(conds: seq<string>, lines: seq<string>)
    requires |conds| == |lines|
    ensures Nesting(Tower(conds, lines)) == |conds|
  {
    if conds != [] { TowerNesting(conds[1..], lines[1..]); }
  }
}
