/**
 The GridBASIC preprocessor: a line-by-line machine for #IF, #ELSE, #ENDIF and #INCLUDE, and
 the block structure it stands for.
 */
module Preprocessor {
  import opened Common

  const LINE_MAX: nat := 255
  const IF_MAX: nat := 16
  const INCLUDE_MAX: nat := 4
  const INC_CAP: nat := 4096
  const PATH_LEN: nat := 63

  /** The files #INCLUDE can read. */
  type Files = map<string, string>

  // ---- lines ----

  predicate IsBlank(c: char) { c == ' ' || c == '\t' }

  function TrimEnd(s: string): (r: string)
    ensures r <= s
  {
    if s != "" && (IsBlank(s[|s| - 1]) || s[|s| - 1] == '\r') then TrimEnd(s[..|s| - 1]) else s
  }

  function SkipBlanks(s: string): (r: string)
    ensures |r| <= |s|
  {
    if s != "" && IsBlank(s[0]) then SkipBlanks(s[1..]) else s
  }

  /** `pp_trim` */
  function Trim(s: string): (r: string)
    ensures |r| <= |s|
  {
    SkipBlanks(TrimEnd(s))
  }

  predicate EndsLine(c: char) { c == '\n' || c == '\r' }

  /** The lines of a source as they reach the directive test: a newline and a carriage return
      each end one, long ones are cut, and all are trimmed. */
  function Lines(src: string, line: string): seq<string>
    decreases |src|
  {
    if src == "" then (if line == "" then [] else [Trim(line)])
    else if EndsLine(src[0]) then [Trim(line)] + Lines(src[1..], "")
    else Lines(src[1..], if |line| < LINE_MAX then line + [src[0]] else line)
  }

  // ---- directives ----

  datatype Kind = Text(line: string) | If(expr: string) | Else | EndIf | Include(path: string) | Ignored

  predicate Starts(s: string, w: string) { w <= s }

  /** A quoted path, cut at 63 characters. */
  function Quoted(s: string, n: nat): string
    decreases |s|
  {
    if s == "" || s[0] == '\"' || n >= PATH_LEN then "" else [s[0]] + Quoted(s[1..], n + 1)
  }

  /** What a trimmed line is to `pp_handle_directive`. */
  function KindOf(line: string): Kind {
    if line == "" || line[0] != '#' then Text(line)
    else
      var s := line[1..];
      if Starts(s, "IF") && |s| > 2 && IsBlank(s[2]) then If(SkipBlanks(s[2..]))
      else if Starts(s, "ELSE") then Else
      else if Starts(s, "ENDIF") then EndIf
      else if Starts(s, "INCLUDE") then
        var p := SkipBlanks(s[7..]);
        if p == "" || p[0] != '\"' then Ignored else Include(Quoted(p[1..], 0))
      else Ignored
  }

  /** `pp_eval_if` */
  predicate EvalIf(expr: string) {
    expr != "" && (expr in ["1", "TRUE", "true", "GRIDOS", "GRIDOS7"] || ('1' <= expr[0] <= '9'))
  }

  function Kinds(lines: seq<string>): (ks: seq<Kind>)
    ensures |ks| == |lines|
  {
    seq(|lines|, i requires 0 <= i < |lines| => KindOf(lines[i]))
  }

  // ---- the machine ----

  datatype State = State(active: bool, stack: seq<bool>, out: string)

  /** Output stops one short of the buffer, which keeps a terminator. */
  function Cut(s: string, n: nat): (r: string)
    ensures |r| <= n && r <= s
  {
    s[..Min(|s|, n)]
  }

  /** The part of a buffer that C takes for its string. */
  function CString(s: string): (r: string)
    ensures r <= s && '\0' !in r
  {
    if s == "" || s[0] == '\0' then "" else [s[0]] + CString(s[1..])
  }

  /** What an #INCLUDE contributes: nothing when the level is too deep or the file is absent,
      empty or too long. */
  function Included(fs: Files, path: string, depth: nat): string
    decreases INCLUDE_MAX - depth, 0
  {
    if depth >= INCLUDE_MAX || path !in fs || fs[path] == "" || |fs[path]| > INC_CAP - 1 then ""
    else Run(fs, CString(fs[path]), INC_CAP, depth + 1)
  }

  /** One line, `pp_handle_directive` or `pp_emit_line`. */
  function Step(fs: Files, st: State, k: Kind, cap: nat, depth: nat): State
    requires cap >= 2
    decreases INCLUDE_MAX - depth, 1
  {
    match k
    case Text(line) => if st.active then st.(out := Cut(st.out + line + "\n", cap - 1)) else st
    case If(expr) =>
      st.(stack := if |st.stack| < IF_MAX then st.stack + [st.active] else st.stack, active := st.active && EvalIf(expr))
    case Else => if st.stack == [] then st else st.(active := st.stack[|st.stack| - 1] && !st.active)
    case EndIf =>
      if st.stack == [] then st
      else st.(active := st.stack[|st.stack| - 1], stack := st.stack[..|st.stack| - 1])
    case Include(path) => if st.active then st.(out := Cut(st.out + Included(fs, path, depth), cap - 1)) else st
    case Ignored => st
  }

  function Fold(fs: Files, st: State, ks: seq<Kind>, cap: nat, depth: nat): State
    requires cap >= 2
    decreases INCLUDE_MAX - depth, 2, |ks|
  {
    if ks == [] then st else Fold(fs, Step(fs, st, ks[0], cap, depth), ks[1..], cap, depth)
  }

  /** `pp_run`: it ends for every set of files, however they include each other, because each
      level of inclusion brings the depth nearer to its limit. */
  function Run(fs: Files, src: string, cap: nat, depth: nat): string
    requires cap >= 2
    decreases INCLUDE_MAX - depth, 3
  {
    Fold(fs, State(true, [], ""), Kinds(Lines(src, "")), cap, depth).out
  }

  // ---- blocks ----

  /** Well-nested source: text, ignored directives, inclusions, and conditionals with at most
      one #ELSE. */
  datatype Block =
    | Done
    | Emit(line: string, rest: Block)
    | Skip(rest: Block)
    | Insert(path: string, rest: Block)
    | When(expr: string, yes: Block, rest: Block)
    | Choose(expr: string, yes: Block, no: Block, rest: Block)

  function Render(b: Block): seq<Kind> {
    match b
    case Done => []
    case Emit(line, rest) => [Text(line)] + Render(rest)
    case Skip(rest) => [Ignored] + Render(rest)
    case Insert(path, rest) => [Include(path)] + Render(rest)
    case When(expr, yes, rest) => [If(expr)] + Render(yes) + [EndIf] + Render(rest)
    case Choose(expr, yes, no, rest) => [If(expr)] + Render(yes) + [Else] + Render(no) + [EndIf] + Render(rest)
  }

  function Nesting(b: Block): nat {
    match b
    case Done => 0
    case Emit(_, rest) => Nesting(rest)
    case Skip(rest) => Nesting(rest)
    case Insert(_, rest) => Nesting(rest)
    case When(_, yes, rest) => Max(1 + Nesting(yes), Nesting(rest))
    case Choose(_, yes, no, rest) => Max(1 + Max(Nesting(yes), Nesting(no)), Nesting(rest))
  }

  /** The text a block stands for. */
  function Meaning(fs: Files, b: Block, depth: nat): string {
    match b
    case Done => ""
    case Emit(line, rest) => line + "\n" + Meaning(fs, rest, depth)
    case Skip(rest) => Meaning(fs, rest, depth)
    case Insert(path, rest) => Included(fs, path, depth) + Meaning(fs, rest, depth)
    case When(expr, yes, rest) => (if EvalIf(expr) then Meaning(fs, yes, depth) else "") + Meaning(fs, rest, depth)
    case Choose(expr, yes, no, rest) =>
      (if EvalIf(expr) then Meaning(fs, yes, depth) else Meaning(fs, no, depth)) + Meaning(fs, rest, depth)
  }

  // ---- the machine computes the meaning ----

  lemma {:induction false} FoldAppend(fs: Files, st: State, a: seq<Kind>, b: seq<Kind>, cap: nat, depth: nat)
    requires cap >= 2
    ensures Fold(fs, st, a + b, cap, depth) == Fold(fs, Fold(fs, st, a, cap, depth), b, cap, depth)
    decreases |a|
  {
    hide Step;
    if a == [] {
      assert a + b == b;
    } else {
      assert (a + b)[1..] == a[1..] + b;
      FoldAppend(fs, Step(fs, st, a[0], cap, depth), a[1..], b, cap, depth);
    }
  }

  lemma {:induction false} FoldOne(fs: Files, st: State, k: Kind, ks: seq<Kind>, cap: nat, depth: nat)
    requires cap >= 2
    ensures Fold(fs, st, [k] + ks, cap, depth) == Fold(fs, Step(fs, st, k, cap, depth), ks, cap, depth)
  {
    hide Step;
    assert ([k] + ks)[1..] == ks;
  }

  lemma {:induction false} CutTwice(a: string, b: string, n: nat)
    ensures Cut(Cut(a, n) + b, n) == Cut(a + b, n)
  {
    if |a| <= n {
      assert Cut(a, n) == a;
    } else {
      assert Cut(Cut(a, n) + b, n) == a[..n];
      assert Cut(a + b, n) == a[..n];
    }
  }

  /** The state a block leaves behind. */
  function After(fs: Files, st: State, b: Block, cap: nat, depth: nat): State
    requires cap >= 2
  {
    st.(out := Cut(st.out + (if st.active then Meaning(fs, b, depth) else ""), cap - 1))
  }

  lemma {:induction false} Nothing(fs: Files, st: State, cap: nat, depth: nat)
    requires cap >= 2 && |st.out| < cap
    ensures After(fs, st, Done, cap, depth) == st
  {
    assert st.out + "" == st.out;
  }

  /** Output in two portions. */
  lemma {:induction false} AfterBoth(st: State, a: string, b: string, n: nat)
    ensures Cut(Cut(st.out + a, n) + b, n) == Cut(st.out + (a + b), n)
  {
    CutTwice(st.out + a, b, n);
    assert st.out + a + b == st.out + (a + b);
  }

  /** The streaming machine and the block semantics agree: over a block nested at most as deep
      as the stack has room, the machine emits the block's text if it is active and nothing if
      not, cut to the buffer, and leaves its own state as it was. */
  lemma {:induction false} StreamsBlock(fs: Files, st: State, b: Block, cap: nat, depth: nat)
    requires cap >= 2 && |st.stack| + Nesting(b) <= IF_MAX && |st.out| < cap
    ensures Fold(fs, st, Render(b), cap, depth) == After(fs, st, b, cap, depth)
    decreases b, 1
  {
    hide Step, Included, Cut, EvalIf;
    match b
    case Done => Nothing(fs, st, cap, depth);
    case Emit(line, rest) =>
      FoldOne(fs, st, Text(line), Render(rest), cap, depth);
      StepText(fs, st, line, cap, depth);
      StreamsRest(fs, st, line + "\n", rest, cap, depth);
    case Skip(rest) =>
      FoldOne(fs, st, Ignored, Render(rest), cap, depth);
      StepIgnored(fs, st, cap, depth);
      StreamsBlock(fs, st, rest, cap, depth);
    case Insert(path, rest) =>
      FoldOne(fs, st, Include(path), Render(rest), cap, depth);
      StepInclude(fs, st, path, cap, depth);
      StreamsRest(fs, st, Included(fs, path, depth), rest, cap, depth);
    case When(expr, yes, rest) => StreamsWhen(fs, st, expr, yes, rest, cap, depth);
    case Choose(expr, yes, no, rest) => StreamsChoose(fs, st, expr, yes, no, rest, cap, depth);
  }

  /** A portion of output, then the rest of the block. */
  lemma {:induction false} StreamsRest(fs: Files, st: State, a: string, rest: Block, cap: nat, depth: nat)
    requires cap >= 2 && |st.stack| + Nesting(rest) <= IF_MAX && |st.out| < cap
    ensures var mid := st.(out := Cut(st.out + (if st.active then a else ""), cap - 1));
            Fold(fs, mid, Render(rest), cap, depth)
            == st.(out := Cut(st.out + (if st.active then a + Meaning(fs, rest, depth) else ""), cap - 1))
    decreases rest, 2
  {
    hide Step, Included, Cut, EvalIf;
    var mid := st.(out := Cut(st.out + (if st.active then a else ""), cap - 1));
    StreamsBlock(fs, mid, rest, cap, depth);
    AfterBoth(st, if st.active then a else "", if st.active then Meaning(fs, rest, depth) else "", cap - 1);
    assert "" + "" == "";
  }

  lemma {:induction false} StepText(fs: Files, st: State, line: string, cap: nat, depth: nat)
    requires cap >= 2 && |st.out| < cap
    ensures Step(fs, st, Text(line), cap, depth) == st.(out := Cut(st.out + (if st.active then line + "\n" else ""), cap - 1))
  {
    assert st.out + line + "\n" == st.out + (line + "\n");
    assert st.out + "" == st.out;
  }

  lemma {:induction false} StepIgnored(fs: Files, st: State, cap: nat, depth: nat)
    requires cap >= 2
    ensures Step(fs, st, Ignored, cap, depth) == st
  {
  }

  /** An included file adds to the output and cannot touch the includer's #IF state. */
  lemma {:induction false} StepInclude(fs: Files, st: State, path: string, cap: nat, depth: nat)
    requires cap >= 2 && |st.out| < cap
    ensures Step(fs, st, Include(path), cap, depth)
            == st.(out := Cut(st.out + (if st.active then Included(fs, path, depth) else ""), cap - 1))
  {
    assert st.out + "" == st.out;
  }

  lemma {:induction false} StepIf(fs: Files, st: State, expr: string, cap: nat, depth: nat)
    requires cap >= 2 && |st.stack| < IF_MAX
    ensures Step(fs, st, If(expr), cap, depth) == State(st.active && EvalIf(expr), st.stack + [st.active], st.out)
  {
  }

  lemma {:induction false} StepElse(fs: Files, s: bool, stack: seq<bool>, a: bool, out: string, cap: nat, depth: nat)
    requires cap >= 2
    ensures Step(fs, State(a, stack + [s], out), Else, cap, depth) == State(s && !a, stack + [s], out)
  {
  }

  lemma {:induction false} StepEndIf(fs: Files, s: bool, stack: seq<bool>, a: bool, out: string, cap: nat, depth: nat)
    requires cap >= 2
    ensures Step(fs, State(a, stack + [s], out), EndIf, cap, depth) == State(s, stack, out)
  {
    assert (stack + [s])[..|stack|] == stack;
  }

  lemma {:induction false} StreamsWhen(fs: Files, st: State, expr: string, yes: Block, rest: Block, cap: nat, depth: nat)
    requires cap >= 2 && |st.stack| + Nesting(When(expr, yes, rest)) <= IF_MAX && |st.out| < cap
    ensures Fold(fs, st, Render(When(expr, yes, rest)), cap, depth) == After(fs, st, When(expr, yes, rest), cap, depth)
    decreases When(expr, yes, rest), 0
  {
    hide Step, Included, Cut, EvalIf, Fold;
    var inner := State(st.active && EvalIf(expr), st.stack + [st.active], st.out);
    var a := if EvalIf(expr) then Meaning(fs, yes, depth) else "";
    assert [If(expr)] + Render(yes) + [EndIf] + Render(rest) == [If(expr)] + (Render(yes) + ([EndIf] + Render(rest)));
    FoldOne(fs, st, If(expr), Render(yes) + ([EndIf] + Render(rest)), cap, depth);
    StepIf(fs, st, expr, cap, depth);
    FoldAppend(fs, inner, Render(yes), [EndIf] + Render(rest), cap, depth);
    StreamsBlock(fs, inner, yes, cap, depth);
    var mid := After(fs, inner, yes, cap, depth);
    FoldOne(fs, mid, EndIf, Render(rest), cap, depth);
    StepEndIf(fs, st.active, st.stack, inner.active, mid.out, cap, depth);
    StreamsRest(fs, st, a, rest, cap, depth);
  }

  /** Both branches of a conditional, from behind the #IF to before the #ENDIF. */
  lemma {:induction false} StreamsBranches(fs: Files, st: State, expr: string, yes: Block, no: Block, rest: Block, cap: nat, depth: nat)
    requires cap >= 2 && |st.stack| + 1 + Max(Nesting(yes), Nesting(no)) <= IF_MAX && |st.out| < cap
    ensures var inner := State(st.active && EvalIf(expr), st.stack + [st.active], st.out);
            var a := if EvalIf(expr) then Meaning(fs, yes, depth) else Meaning(fs, no, depth);
            Fold(fs, inner, Render(yes) + ([Else] + Render(no)), cap, depth)
            == State(st.active && !inner.active, inner.stack, Cut(st.out + (if st.active then a else ""), cap - 1))
    decreases Choose(expr, yes, no, rest), 0, 0
  {
    hide Step, Included, Cut, EvalIf, Fold;
    var inner := State(st.active && EvalIf(expr), st.stack + [st.active], st.out);
    FoldAppend(fs, inner, Render(yes), [Else] + Render(no), cap, depth);
    StreamsBlock(fs, inner, yes, cap, depth);
    var mid := After(fs, inner, yes, cap, depth);
    FoldOne(fs, mid, Else, Render(no), cap, depth);
    StepElse(fs, st.active, st.stack, inner.active, mid.out, cap, depth);
    var other := State(st.active && !inner.active, inner.stack, mid.out);
    CutShort(st.out, if inner.active then Meaning(fs, yes, depth) else "", cap - 1);
    StreamsBlock(fs, other, no, cap, depth);
    OneBranch(st.out, if inner.active then Meaning(fs, yes, depth) else "",
              if other.active then Meaning(fs, no, depth) else "", cap - 1);
  }

  lemma {:induction false} StreamsChoose(fs: Files, st: State, expr: string, yes: Block, no: Block, rest: Block, cap: nat, depth: nat)
    requires cap >= 2 && |st.stack| + Nesting(Choose(expr, yes, no, rest)) <= IF_MAX && |st.out| < cap
    ensures Fold(fs, st, Render(Choose(expr, yes, no, rest)), cap, depth)
            == After(fs, st, Choose(expr, yes, no, rest), cap, depth)
    decreases Choose(expr, yes, no, rest), 0, 1
  {
    hide Step, Included, Cut, EvalIf, Fold, Render;
    var inner := State(st.active && EvalIf(expr), st.stack + [st.active], st.out);
    var a := if EvalIf(expr) then Meaning(fs, yes, depth) else Meaning(fs, no, depth);
    RenderChoose(expr, yes, no, rest);
    var branches, behind := Render(yes) + ([Else] + Render(no)), [EndIf] + Render(rest);
    FoldOne(fs, st, If(expr), branches + behind, cap, depth);
    StepIf(fs, st, expr, cap, depth);
    FoldAppend(fs, inner, branches, behind, cap, depth);
    StreamsBranches(fs, st, expr, yes, no, rest, cap, depth);
    var last := Cut(st.out + (if st.active then a else ""), cap - 1);
    FoldOne(fs, State(st.active && !inner.active, inner.stack, last), EndIf, Render(rest), cap, depth);
    StepEndIf(fs, st.active, st.stack, st.active && !inner.active, last, cap, depth);
    StreamsRest(fs, st, a, rest, cap, depth);
  }

  lemma {:induction false} RenderChoose(expr: string, yes: Block, no: Block, rest: Block)
    ensures Render(Choose(expr, yes, no, rest))
            == [If(expr)] + ((Render(yes) + ([Else] + Render(no))) + ([EndIf] + Render(rest)))
  {
  }

  lemma {:induction false} CutShort(s: string, a: string, n: nat)
    ensures |Cut(s + a, n)| <= n
  {
  }

  /** At most one branch writes. */
  lemma {:induction false} OneBranch(s: string, a: string, b: string, n: nat)
    requires a == "" || b == ""
    ensures Cut(Cut(s + a, n) + b, n) == Cut(s + (if a == "" then b else a), n)
  {
    CutTwice(s + a, b, n);
    if a == "" { assert s + a == s; } else { assert s + a + b == s + a; }
  }

  /** The preprocessor on a source whose lines are those of a well-nested block, at most 16
      conditionals deep: the block's text, as far as the buffer goes. */
  lemma {:induction false} RunIsMeaning(fs: Files, src: string, b: Block, cap: nat, depth: nat)
    requires cap >= 2 && Kinds(Lines(src, "")) == Render(b) && Nesting(b) <= IF_MAX
    ensures Run(fs, src, cap, depth) == Cut(Meaning(fs, b, depth), cap - 1)
  {
    hide Fold, Lines, Kinds, Render, Meaning, Nesting;
    StreamsBlock(fs, State(true, [], ""), b, cap, depth);
    assert "" + Meaning(fs, b, depth) == Meaning(fs, b, depth);
  }

  /** Why 16: with the stack full a conditional takes its parent's entry with it. */
  lemma {:induction false} SeventeenthBreaks(fs: Files, st: State, expr: string, cap: nat, depth: nat)
    requires cap >= 2 && |st.stack| == IF_MAX
    ensures |Fold(fs, st, [If(expr), EndIf], cap, depth).stack| == IF_MAX - 1
  {
    var mid := Step(fs, st, If(expr), cap, depth);
    assert [If(expr), EndIf] == [If(expr)] + [EndIf];
    FoldOne(fs, st, If(expr), [EndIf], cap, depth);
    FoldOne(fs, mid, EndIf, [], cap, depth);
    assert [EndIf] + [] == [EndIf];
  }
}
