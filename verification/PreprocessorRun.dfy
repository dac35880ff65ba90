/**
 The preprocessor as it runs: character buffers updated in place, one pair of them for each
 level of inclusion. A run at one level is proved to compute `Preprocessor.Run` and to write
 only its own output and the buffers of deeper levels.
 */
module PreprocessorRun {
  import opened Common
  import opened Preprocessor

  /** The array holds s as a C string. */
  ghost predicate HoldsString(a: array<char>, s: string)
    reads a
  {
    |s| < a.Length && a[..|s|] == s && a[|s|] == '\0' && '\0' !in s
  }

  // ---- no terminator inside ----

  lemma {:induction false} TrimKeeps(s: string)
    requires '\0' !in s
    ensures '\0' !in Trim(s)
  {
    SkipKeeps(TrimEnd(s));
  }

  lemma {:induction false} SkipKeeps(s: string)
    requires '\0' !in s
    ensures '\0' !in SkipBlanks(s)
  {
    if s != "" && IsBlank(s[0]) { SkipKeeps(s[1..]); }
  }

  lemma {:induction false} LinesKeep(src: string, line: string)
    requires '\0' !in src && '\0' !in line
    ensures forall k :: 0 <= k < |Lines(src, line)| ==> '\0' !in Lines(src, line)[k]
    decreases |src|
  {
    hide Trim;
    TrimKeeps(line);
    if src != "" {
      if EndsLine(src[0]) { LinesKeep(src[1..], ""); }
      else { LinesKeep(src[1..], if |line| < LINE_MAX then line + [src[0]] else line); }
    }
  }

  lemma {:induction false} IncludedKeeps(fs: Files, path: string, depth: nat)
    ensures '\0' !in Included(fs, path, depth)
    decreases INCLUDE_MAX - depth, 0
  {
    hide Run;
    if depth < INCLUDE_MAX && path in fs { RunKeeps(fs, CString(fs[path]), INC_CAP, depth + 1); }
  }

  lemma {:induction false} StepKeeps(fs: Files, st: State, k: Kind, cap: nat, depth: nat)
    requires cap >= 2 && '\0' !in st.out && (k.Text? ==> '\0' !in k.line)
    ensures '\0' !in Step(fs, st, k, cap, depth).out
    decreases INCLUDE_MAX - depth, 1
  {
    hide Included;
    if k.Include? { IncludedKeeps(fs, k.path, depth); }
  }

  lemma {:induction false} FoldKeeps(fs: Files, st: State, ks: seq<Kind>, cap: nat, depth: nat)
    requires cap >= 2 && '\0' !in st.out && forall i :: 0 <= i < |ks| ==> ks[i].Text? ==> '\0' !in ks[i].line
    ensures '\0' !in Fold(fs, st, ks, cap, depth).out
    decreases INCLUDE_MAX - depth, 2, |ks|
  {
    hide Step;
    if ks != [] {
      StepKeeps(fs, st, ks[0], cap, depth);
      FoldKeeps(fs, Step(fs, st, ks[0], cap, depth), ks[1..], cap, depth);
    }
  }

  lemma {:induction false} RunKeeps(fs: Files, src: string, cap: nat, depth: nat)
    requires cap >= 2 && '\0' !in src
    ensures '\0' !in Run(fs, src, cap, depth)
    decreases INCLUDE_MAX - depth, 3
  {
    hide Fold, Lines;
    LinesKeep(src, "");
    KindsKeep(Lines(src, ""));
    FoldKeeps(fs, State(true, [], ""), Kinds(Lines(src, "")), cap, depth);
  }

  lemma {:induction false} KindsKeep(lines: seq<string>)
    requires forall k :: 0 <= k < |lines| ==> '\0' !in lines[k]
    ensures forall k :: 0 <= k < |lines| ==> Kinds(lines)[k].Text? ==> '\0' !in Kinds(lines)[k].line
  {
  }

  // ---- loops on buffers ----

  /** `pp_emit_line` and the copying of an included file: text added to the output, as far as
      there is room. */
  method Append(out: array<char>, from: nat, text: string) returns (pos: nat)
    requires from < out.Length
    modifies out
    ensures pos < out.Length && out[..pos] == Cut(old(out[..from]) + text, out.Length - 1)
  {
    pos := from;
    var i := 0;
    while i < |text| && pos + 1 < out.Length
      invariant i <= |text| && pos == from + i < out.Length
      invariant out[..pos] == old(out[..from]) + text[..i]
    {
      out[pos] := text[i];
      ghost var was := out[..pos];
      pos, i := pos + 1, i + 1;
      assert out[..pos] == was + [text[i - 1]];
    }
    if i == |text| { assert text[..i] == text; }
  }

  /** `pp_trim` */
  method TrimLine(line: array<char>, li: nat) returns (n: nat)
    requires li <= line.Length
    modifies line
    ensures n <= li && line[..n] == Trim(old(line[..li]))
  {
    hide TrimEnd, SkipBlanks;
    n := TrimTail(line, li);
    ghost var t := line[..n];
    var i := CountBlanks(line, n);
    assert SkipBlanks(t) == t[i..];
    if i > 0 {
      ShiftLeft(line, i, n);
      n := n - i;
    }
  }

  /** The length of the line without the blanks at its end. */
  method TrimTail(line: array<char>, li: nat) returns (n: nat)
    requires li <= line.Length
    ensures n <= li && line[..n] == TrimEnd(line[..li])
  {
    n := li;
    ghost var s := line[..li];
    assert s[..li] == s;
    while n > 0 && (IsBlank(line[n - 1]) || line[n - 1] == '\r')
      invariant n <= li && TrimEnd(s[..n]) == TrimEnd(s)
    {
      assert s[..n][..n - 1] == s[..n - 1];
      n := n - 1;
    }
    assert s[..n] == line[..n];
  }

  /** How many blanks a line begins with. */
  method CountBlanks(line: array<char>, n: nat) returns (i: nat)
    requires n <= line.Length
    ensures i <= n && SkipBlanks(line[..n]) == line[..n][i..]
  {
    ghost var t := line[..n];
    i := 0;
    while i < n && IsBlank(line[i])
      invariant i <= n && SkipBlanks(t[i..]) == SkipBlanks(t)
    {
      assert t[i..][1..] == t[i + 1..];
      i := i + 1;
    }
  }

  /** The characters from i on, moved to the front. */
  method ShiftLeft(line: array<char>, i: nat, n: nat)
    requires i <= n <= line.Length
    modifies line
    ensures line[..n - i] == old(line[i..n])
  {
    var j := 0;
    while i + j < n
      invariant i + j <= n
      invariant forall k :: 0 <= k < j ==> line[k] == old(line[i + k])
      invariant forall k :: j <= k < n ==> line[k] == old(line[k])
    {
      line[j] := line[i + j];
      j := j + 1;
    }
  }

  /** Per-run state: an included file has its own. */
  class IfState {
    var active: bool
    const stack: array<bool>
    var sp: nat

    ghost predicate Valid()
      reads this
    {
      stack.Length == IF_MAX && sp <= IF_MAX
    }

    constructor ()
      ensures Valid() && fresh(stack) && active && sp == 0
    {
      active := true;
      stack := new bool[IF_MAX](_ => false);
      sp := 0;
    }

    ghost function With(out: string): State
      requires Valid()
      reads this, stack
    {
      State(active, stack[..sp], out)
    }

    /** The #IF, #ELSE and #ENDIF parts of `pp_handle_directive`. */
    method Handle(k: Kind, ghost fs: Files, ghost out: string, ghost cap: nat, ghost depth: nat)
      requires Valid() && !k.Text? && !k.Include? && cap >= 2
      modifies this, stack
      ensures Valid() && With(out) == Step(fs, old(With(out)), k, cap, depth)
    {
      match k
      case If(expr) =>
        var val := EvalIf(expr);
        if sp < IF_MAX {
          stack[sp] := active;
          sp := sp + 1;
          assert stack[..sp] == old(stack[..sp]) + [old(active)];
        }
        if active { active := val; }
      case Else =>
        if sp > 0 {
          var parent := stack[sp - 1];
          active := parent && !active;
        }
      case EndIf =>
        if sp > 0 {
          sp := sp - 1;
          active := stack[sp];
        }
      case _ =>
    }
  }

  class Expander {
    const files: Files
    const incBuf: seq<array<char>>
    const incOut: seq<array<char>>

    /** One buffer pair for each level, all different. */
    ghost predicate Valid() {
      && |incBuf| == |incOut| == INCLUDE_MAX
      && (forall i :: 0 <= i < INCLUDE_MAX ==> incBuf[i].Length == incOut[i].Length == INC_CAP)
      && (forall i, j :: 0 <= i < INCLUDE_MAX && 0 <= j < INCLUDE_MAX ==> incBuf[i] != incOut[j])
      && (forall i, j :: 0 <= i < j < INCLUDE_MAX ==> incBuf[i] != incBuf[j] && incOut[i] != incOut[j])
    }

    /** The buffers of a level and the deeper ones. */
    ghost function Buffers(depth: nat): set<array<char>>
      requires Valid()
    {
      (set i | depth <= i < INCLUDE_MAX :: incBuf[i]) + (set i | depth <= i < INCLUDE_MAX :: incOut[i])
    }

    constructor (fs: Files)
      ensures Valid() && files == fs && fresh(Buffers(0))
    {
      files := fs;
      var a, b, c, d := new char[INC_CAP], new char[INC_CAP], new char[INC_CAP], new char[INC_CAP];
      var e, f, g, h := new char[INC_CAP], new char[INC_CAP], new char[INC_CAP], new char[INC_CAP];
      incBuf := [a, b, c, d];
      incOut := [e, f, g, h];
    }

    /** `gfs_read_file` into the buffer of a level. */
    method ReadInto(buf: array<char>, path: string) returns (ok: bool)
      requires buf.Length == INC_CAP
      modifies buf
      ensures ok == (path in files && files[path] != "" && |files[path]| <= INC_CAP - 1)
      ensures ok ==> HoldsString(buf, CString(files[path]))
    {
      if path !in files || |files[path]| > INC_CAP - 1 || |files[path]| == 0 { return false; }
      var content := files[path];
      for i := 0 to |content|
        invariant buf[..i] == content[..i]
      {
        buf[i] := content[i];
      }
      buf[|content|] := '\0';
      assert buf[..|content|] == content;
      StringEnds(content);
      var s := CString(content);
      assert buf[..|s|] == content[..|s|];
      ok := true;
    }

    /** One trimmed line. */
    method HandleLine(st: IfState, line: string, out: array<char>, from: nat, depth: nat) returns (pos: nat)
      requires Valid() && st.Valid() && from < out.Length && out.Length >= 2 && depth <= INCLUDE_MAX
      requires out !in Buffers(depth) && '\0' !in line
      modifies st, st.stack, out, Buffers(depth)
      ensures st.Valid() && pos < out.Length
      ensures st.With(out[..pos]) == Step(files, old(st.With(out[..from])), KindOf(line), out.Length, depth)
      decreases INCLUDE_MAX - depth, 1
    {
      hide KindOf, Included, Cut;
      pos := from;
      var k := KindOf(line);
      match k {
        case Text(text) =>
          KindText(line);
          if st.active {
            pos := Append(out, pos, text + "\n");
            assert old(out[..from]) + (text + "\n") == old(out[..from]) + text + "\n";
          }
        case Include(path) =>
          if st.active {
            var text := IncludeFile(path, depth);
            pos := Append(out, pos, text);
          }
        case _ =>
          st.Handle(k, files, out[..from], out.Length, depth);
      }
    }

    /** The #INCLUDE part of `pp_handle_directive`: the level's own buffers are used, the file
        is expanded one level deeper. */
    method IncludeFile(path: string, depth: nat) returns (text: string)
      requires Valid() && depth <= INCLUDE_MAX
      modifies Buffers(depth)
      ensures text == Included(files, path, depth)
      decreases INCLUDE_MAX - depth, 0
    {
      hide Run;
      if depth >= INCLUDE_MAX { return ""; }
      var ibuf, iout := incBuf[depth], incOut[depth];
      assert ibuf in Buffers(depth) && iout in Buffers(depth);
      LevelsApart(depth);
      var ok := ReadInto(ibuf, path);
      if !ok { return ""; }
      ghost var s := CString(files[path]);
      var done := PpRun(ibuf, iout, depth + 1, s);
      text := ReadString(iout, Run(files, s, INC_CAP, depth + 1));
    }

    /** The buffers of a level are none of the deeper ones. */
    lemma {:induction false} LevelsApart(depth: nat)
      requires Valid() && depth < INCLUDE_MAX
      ensures incBuf[depth] !in Buffers(depth + 1) && incOut[depth] !in Buffers(depth + 1)
      ensures Buffers(depth + 1) <= Buffers(depth) && incBuf[depth] != incOut[depth]
    {
    }

    /** `pp_run` */
    method PpRun(src: array<char>, out: array<char>, depth: nat, ghost s: string) returns (ok: bool)
      requires Valid() && depth <= INCLUDE_MAX && HoldsString(src, s) && src != out
      requires src !in Buffers(depth) && out !in Buffers(depth)
      modifies out, Buffers(depth)
      ensures ok <==> out.Length >= 2
      ensures ok ==> HoldsString(out, Run(files, s, out.Length, depth))
      decreases INCLUDE_MAX - depth, 2
    {
      hide Step, Trim, KindOf, Fold;
      if out.Length < 2 { return false; }
      var line := new char[LINE_MAX + 1];
      var st := new IfState();
      var pos: nat, li: nat, i: nat := 0, 0, 0;
      assert s[0..] == s && line[..0] == "" && out[..0] == "" && st.stack[..0] == [];
      RunKeeps(files, s, out.Length, depth);
      while src[i] != '\0' || li > 0
        invariant i <= |s| && li <= LINE_MAX && pos < out.Length && st.Valid() && HoldsString(src, s)
        invariant fresh(line) && fresh(st) && fresh(st.stack) && line.Length == LINE_MAX + 1
        invariant '\0' !in line[..li]
        invariant Fold(files, st.With(out[..pos]), Kinds(Lines(s[i..], line[..li])), out.Length, depth).out
                  == Run(files, s, out.Length, depth)
        decreases |s| - i, li
      {
        var c := src[i];
        assert i < |s| ==> s[i..][0] == c && s[i..][1..] == s[i + 1..];
        if EndsLine(c) || c == '\0' {
          ghost var text := line[..li];
          TrimKeeps(text);
          var n := TrimLine(line, li);
          LinesStep(s[i..], text);
          ghost var ks := Kinds(Lines(s[i..], text));
          FoldFirst(files, st.With(out[..pos]), ks, out.Length, depth);
          pos := HandleLine(st, line[..n], out, pos, depth);
          li := 0;
          assert line[..0] == "";
          if c == '\0' {
            FoldNone(files, st.With(out[..pos]), out.Length, depth);
            break;
          }
        } else {
          LinesChar(s[i..], line[..li]);
          if li + 1 < line.Length {
            line[li] := c;
            ghost var was := line[..li];
            li := li + 1;
            assert line[..li] == was + [c];
          }
        }
        i := i + 1;
      }
      if li == 0 && i == |s| { FoldNone(files, st.With(out[..pos]), out.Length, depth); }
      out[pos] := '\0';
      ok := true;
    }
  }

  lemma {:induction false} StringEnds(s: string)
    ensures var r := CString(s); |r| < |s| ==> s[|r|] == '\0'
  {
    if s != "" && s[0] != '\0' { StringEnds(s[1..]); }
  }

  lemma {:induction false} KindText(line: string)
    ensures KindOf(line).Text? ==> KindOf(line).line == line
  {
  }

  /** The loop that copies an expanded file out of its buffer, up to the terminator. */
  method ReadString(buf: array<char>, ghost s: string) returns (text: string)
    requires HoldsString(buf, s)
    ensures text == s
  {
    text := "";
    var j := 0;
    while buf[j] != '\0'
      invariant j <= |s| && text == s[..j]
      decreases |s| - j
    {
      text := text + [buf[j]];
      j := j + 1;
    }
  }

  /** The line that ends here, and the rest. */
  lemma {:induction false} LinesStep(src: string, line: string)
    requires src == "" ==> line != ""
    requires src != "" ==> EndsLine(src[0])
    ensures Kinds(Lines(src, line)) == [KindOf(Trim(line))] + Kinds(if src == "" then [] else Lines(src[1..], ""))
  {
    hide KindOf, Trim;
  }

  lemma {:induction false} LinesChar(src: string, line: string)
    requires src != "" && !EndsLine(src[0])
    ensures Lines(src, line) == Lines(src[1..], if |line| < LINE_MAX then line + [src[0]] else line)
  {
  }

  lemma {:induction false} FoldFirst(fs: Files, st: State, ks: seq<Kind>, cap: nat, depth: nat)
    requires cap >= 2 && ks != []
    ensures Fold(fs, st, ks, cap, depth) == Fold(fs, Step(fs, st, ks[0], cap, depth), ks[1..], cap, depth)
  {
    hide Step;
  }

  lemma {:induction false} FoldNone(fs: Files, st: State, cap: nat, depth: nat)
    requires cap >= 2
    ensures Fold(fs, st, Kinds(Lines("", "")), cap, depth) == st && Fold(fs, st, [], cap, depth) == st
  {
    assert Lines("", "") == [];
  }
}
