/**
 The token-cursor machine: what one round of the interpreter's main loop does to the
 cursor, the variable table, the loop-frame stack and the console text.
 */
module BasicMachine {
  import opened Common
  import opened Numbers
  import opened BasicEval

  const MAX_FRAMES: nat := 64

  /** A loop frame: the token index to resume at and, for FOR, the control variable's
      index in the table with the limit and the step. */
  datatype Frame = ForFrame(tok: nat, v: nat, limit: int, step: int) | WhileFrame(tok: nat) | RepeatFrame(tok: nat)

  datatype St = St(cur: nat, vars: seq<Var>, frames: seq<Frame>, out: string, ok: bool, running: bool)

  predicate Valid(toks: seq<Token>, st: St) {
    && Terminated(toks) && st.cur < |toks|
    && forall i :: 0 <= i < |st.frames| ==>
         st.frames[i].tok < |toks| && (st.frames[i].ForFrame? ==> st.frames[i].v < |st.vars|)
  }

  function Fail(st: St): St { st.(ok := false) }

  /** `eval_expr` at the cursor of the machine. */
  function EvalAt(toks: seq<Token>, st: St): (r: (int, St))
    requires Terminated(toks) && st.cur < |toks|
    ensures st.cur <= r.1.cur < |toks| && r.1.frames == st.frames && |st.vars| <= |r.1.vars|
    ensures r.1.ok ==> st.cur < r.1.cur
  {
    var e := Eval(OR_LEVEL, toks, st.cur, 0, st.vars);
    (e.v, st.(cur := e.cur, vars := e.vars, ok := st.ok && e.ok))
  }

  predicate IsTrue(v: int) { v != 0 }

  // ---- PRINT ----

  predicate PrintEnds(t: Token) {
    || t == Newline || t == Eof || t == Op(':')
    || t == Kw(ELSE) || t == Kw(ELSEIF) || t == Kw(END) || t == Kw(STOP)
  }

  function Blanks(n: nat): string { seq(n, _ => ' ') }

  function NextTab(col: nat): nat { (col / 14 + 1) * 14 }

  /** `exec_print`, entered behind the keyword: col is the column reached, sep whether
      the last thing seen was a separator. */
  function PrintLoop(toks: seq<Token>, st: St, col: nat, sep: bool): (r: St)
    requires Terminated(toks) && st.cur < |toks|
    ensures st.cur <= r.cur < |toks| && r.frames == st.frames && |st.vars| <= |r.vars|
    decreases |toks| - st.cur
  {
    var t := toks[st.cur];
    if PrintEnds(t) then (if sep then st else st.(out := st.out + "\n"))
    else if t == Op(';') then PrintLoop(toks, st.(cur := st.cur + 1), col, true)
    else if t == Op(',') then
      PrintLoop(toks, st.(cur := st.cur + 1, out := st.out + Blanks(NextTab(col) - col)), NextTab(col), true)
    else
      var (v, s1) := EvalAt(toks, st);
      if !s1.ok then s1
      else PrintLoop(toks, s1.(out := s1.out + NumText(v)), col + |NumText(v)|, false)
  }

  // ---- assignment ----

  function SetVar(vars: seq<Var>, i: nat, n: int): seq<Var>
    requires i < |vars|
  {
    vars[i := vars[i].(n := n)]
  }

  /** `exec_assign`: the cursor is at the variable's name. */
  function Assign(toks: seq<Token>, st: St): (r: St)
    requires Terminated(toks) && st.cur < |toks|
    ensures st.cur <= r.cur < |toks| && r.frames == st.frames && |st.vars| <= |r.vars|
  {
    if !toks[st.cur].Id? then Fail(st)
    else
      match GetVar(st.vars, toks[st.cur].name)
      case None => Fail(st.(cur := st.cur + 1))
      case Some((vs, i)) =>
        var s1 := st.(cur := st.cur + 1, vars := vs);
        if toks[s1.cur] != Op('=') && toks[s1.cur] != Op('E') then Fail(s1)
        else
          var (v, s2) := EvalAt(toks, s1.(cur := s1.cur + 1));
          if s2.ok then s2.(vars := SetVar(s2.vars, i, v)) else Fail(s2)
  }

  /** The statements this model executes inside IF: PRINT and assignment. */
  function ExecSimple(toks: seq<Token>, st: St): (r: St)
    requires Terminated(toks) && st.cur < |toks|
    ensures st.cur <= r.cur < |toks| && r.frames == st.frames && |st.vars| <= |r.vars|
  {
    match toks[st.cur]
    case Newline => st
    case Eof => st
    case Kw(PRINT) => PrintLoop(toks, st.(cur := st.cur + 1), 0, false)
    case Op('?') => PrintLoop(toks, st.(cur := st.cur + 1), 0, false)
    case Kw(LET) => Assign(toks, st.(cur := st.cur + 1))
    case Id(_) => Assign(toks, st)
    case _ => Fail(st)
  }

  // ---- IF ----

  /** `skip_to_newline` */
  function SkipToNewline(toks: seq<Token>, cur: nat): (r: nat)
    requires Terminated(toks) && cur < |toks|
    ensures cur <= r < |toks|
    decreases |toks| - cur
  {
    if toks[cur] == Newline || toks[cur] == Eof then cur else SkipToNewline(toks, cur + 1)
  }

  /** `skip_if_false_branch` */
  function SkipFalseBranch(toks: seq<Token>, cur: nat): (r: nat)
    requires Terminated(toks) && cur < |toks|
    ensures cur <= r < |toks|
    decreases |toks| - cur
  {
    if toks[cur] == Newline || toks[cur] == Eof || toks[cur] == Kw(ELSE) || toks[cur] == Kw(ELSEIF) then cur
    else SkipFalseBranch(toks, cur + 1)
  }

  /** A branch: statements separated by colons. */
  function Branch(toks: seq<Token>, st: St): (r: St)
    requires Terminated(toks) && st.cur < |toks|
    ensures st.cur <= r.cur < |toks| && r.frames == st.frames && |st.vars| <= |r.vars|
    decreases |toks| - st.cur
  {
    var s1 := ExecSimple(toks, st);
    if toks[s1.cur] == Op(':') then Branch(toks, s1.(cur := s1.cur + 1)) else s1
  }

  /** `exec_if_chain`: the cursor is at the condition. */
  function IfChain(toks: seq<Token>, st: St): (r: St)
    requires Terminated(toks) && st.cur < |toks|
    ensures st.cur <= r.cur < |toks| && r.frames == st.frames && |st.vars| <= |r.vars|
    decreases |toks| - st.cur
  {
    var (v, s1) := EvalAt(toks, st);
    if toks[s1.cur] != Kw(THEN) then Fail(s1)
    else
      var s2 := s1.(cur := s1.cur + 1);
      if IsTrue(v) then
        if toks[s2.cur].Num? then Fail(s2)  // IF .. THEN <line>: jumps are outside this model
        else
          var s3 := Branch(toks, s2);
          s3.(cur := SkipToNewline(toks, s3.cur))
      else
        var c := SkipFalseBranch(toks, s2.cur);
        if toks[c] == Kw(ELSEIF) then IfChain(toks, s2.(cur := c + 1))
        else if toks[c] == Kw(ELSE) then Branch(toks, s2.(cur := c + 1))
        else s2.(cur := c)
  }

  // ---- loops ----

  function ExecFor(toks: seq<Token>, st: St): (r: St)
    requires Valid(toks, st)
    ensures Valid(toks, r)
  {
    if !toks[st.cur].Id? then Fail(st)
    else if toks[st.cur + 1] != Op('=') then Fail(st.(cur := st.cur + 1))
    else
      var (start, s1) := EvalAt(toks, st.(cur := st.cur + 2));
      ForLimit(toks, s1, toks[st.cur].name, start)
  }

  /** FOR from the keyword TO on. */
  function ForLimit(toks: seq<Token>, st: St, name: string, start: int): (r: St)
    requires Valid(toks, st)
    ensures Valid(toks, r)
  {
    if toks[st.cur] != Kw(TO) then Fail(st)
    else
      var (limit, s1) := EvalAt(toks, st.(cur := st.cur + 1));
      ForStep(toks, s1, name, start, limit)
  }

  /** FOR from behind the limit on: an optional STEP, then the loop is entered. */
  function ForStep(toks: seq<Token>, st: St, name: string, start: int, limit: int): (r: St)
    requires Valid(toks, st)
    ensures Valid(toks, r)
  {
    if toks[st.cur] == Kw(STEP) then
      var (step, s1) := EvalAt(toks, st.(cur := st.cur + 1));
      EnterFor(s1, name, start, limit, step)
    else EnterFor(st, name, start, limit, SCALE)
  }

  /** The control variable is set and the frame pushed; the frame resumes at the cursor. */
  function EnterFor(st: St, name: string, start: int, limit: int, step: int): (r: St)
    ensures r.cur == st.cur && |st.vars| <= |r.vars|
    ensures r.frames == st.frames || (|r.frames| == |st.frames| + 1 && st.frames <= r.frames
                                      && r.frames[|st.frames|].ForFrame? && r.frames[|st.frames|].tok == st.cur
                                      && r.frames[|st.frames|].v < |r.vars|)
  {
    match GetVar(st.vars, name)
    case None => Fail(st)
    case Some((vs, i)) =>
      var s1 := st.(vars := SetVar(vs, i, start));
      if |s1.frames| >= MAX_FRAMES then Fail(s1)
      else s1.(frames := s1.frames + [ForFrame(st.cur, i, limit, step)])
  }

  predicate Continues(v: int, limit: int, step: int) {
    if step >= 0 then v <= limit else v >= limit
  }

  function ExecNext(toks: seq<Token>, st: St): (r: St)
    requires Valid(toks, st)
    ensures Valid(toks, r)
  {
    if st.frames == [] || !st.frames[|st.frames| - 1].ForFrame? then Fail(st)
    else
      var f := st.frames[|st.frames| - 1];
      var s1 := if toks[st.cur].Id? then st.(cur := st.cur + 1) else st;
      var v := Wrap64(s1.vars[f.v].n + f.step);
      var s2 := s1.(vars := SetVar(s1.vars, f.v, v));
      if Continues(v, f.limit, f.step) then s2.(cur := f.tok)
      else s2.(frames := s2.frames[..|s2.frames| - 1])
  }

  /** The scan for the matching WEND, `depth` loops deep; the result is behind it. */
  function SkipToWend(toks: seq<Token>, cur: nat, depth: nat): (r: nat)
    requires Terminated(toks) && cur < |toks| && depth > 0
    ensures cur <= r < |toks|
    decreases |toks| - cur
  {
    match toks[cur]
    case Eof => cur
    case Kw(WHILE) => SkipToWend(toks, cur + 1, depth + 1)
    case Kw(WEND) => if depth == 1 then cur + 1 else SkipToWend(toks, cur + 1, depth - 1)
    case _ => SkipToWend(toks, cur + 1, depth)
  }

  function ExecWhile(toks: seq<Token>, st: St): (r: St)
    requires Valid(toks, st)
    ensures Valid(toks, r)
  {
    if |st.frames| >= MAX_FRAMES then Fail(st)
    else
      var (v, s1) := EvalAt(toks, st.(frames := st.frames + [WhileFrame(st.cur)]));
      if IsTrue(v) then s1
      else s1.(cur := SkipToWend(toks, s1.cur, 1), frames := st.frames)
  }

  function ExecWend(toks: seq<Token>, st: St): (r: St)
    requires Valid(toks, st)
    ensures Valid(toks, r)
  {
    if st.frames == [] || !st.frames[|st.frames| - 1].WhileFrame? then Fail(st)
    else
      var f := st.frames[|st.frames| - 1];
      var (v, s1) := EvalAt(toks, st.(cur := f.tok));
      if IsTrue(v) then s1
      else s1.(cur := st.cur, frames := st.frames[..|st.frames| - 1])
  }

  function ExecRepeat(st: St): St {
    if |st.frames| >= MAX_FRAMES then Fail(st)
    else st.(frames := st.frames + [RepeatFrame(st.cur)])
  }

  function ExecUntil(toks: seq<Token>, st: St): (r: St)
    requires Valid(toks, st)
    ensures Valid(toks, r)
  {
    if st.frames == [] || !st.frames[|st.frames| - 1].RepeatFrame? then Fail(st)
    else
      var (v, s1) := EvalAt(toks, st);
      if IsTrue(v) then s1.(frames := st.frames[..|st.frames| - 1])
      else s1.(cur := st.frames[|st.frames| - 1].tok)
  }

  /** `exec_statement`, for the statements of this model; any other one fails. */
  function ExecStatement(toks: seq<Token>, st: St): (r: St)
    requires Valid(toks, st)
    ensures Valid(toks, r)
  {
    var next := st.(cur := Advance(toks, st.cur));
    match toks[st.cur]
    case Newline => st
    case Eof => st
    case Kw(IF) => IfChain(toks, next)
    case Kw(FOR) => ExecFor(toks, next)
    case Kw(NEXT) => ExecNext(toks, next)
    case Kw(WHILE) => ExecWhile(toks, next)
    case Kw(WEND) => ExecWend(toks, next)
    case Kw(REPEAT) => ExecRepeat(next)
    case Kw(UNTIL) => ExecUntil(toks, next)
    case Kw(REM) => st.(cur := SkipToNewline(toks, st.cur))
    case Kw(STOP) => next.(running := false)
    case _ => ExecSimple(toks, st)
  }

  /** The machine has stopped: at the end of the program, by STOP, or on an error. */
  predicate Halted(toks: seq<Token>, st: St) {
    !st.ok || !st.running || st.cur >= |toks| || toks[st.cur] == Eof
  }

  /** One round of `run_loop`. */
  function Step(toks: seq<Token>, st: St): (r: St)
    requires Valid(toks, st)
    ensures Valid(toks, r)
  {
    if Halted(toks, st) then st
    else if toks[st.cur] == Newline || toks[st.cur] == Op(':') then st.(cur := st.cur + 1)
    else ExecStatement(toks, st)
  }
}
