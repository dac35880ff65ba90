/**
 The interpreter as the kernel runs it: a cursor, a variable table and a frame stack
 changed in place by recursive-descent methods and statement methods. Every method is
 proved to do what the functions of BasicEval and BasicMachine say.
 */
module BasicInterpreter {
  import opened Common
  import opened Numbers
  import opened BasicEval
  import opened BasicMachine
  import opened BasicLoops
  import opened BasicLines
  import opened BasicProgram
  import opened BasicExpr

  lemma {:induction false} RestEnds(p: nat, l: Ev, toks: seq<Token>, depth: nat)
    requires BinaryLevel(p) && Terminated(toks) && l.cur < |toks| && OpAt(p, toks[l.cur]) == None
    ensures Rest(p, l, toks, depth) == l
  {
  }

  lemma {:induction false} PowEnds(l: Ev, toks: seq<Token>, depth: nat)
    requires Terminated(toks) && l.cur < |toks| && toks[l.cur] != Op('^')
    ensures PowRest(l, toks, depth) == l
  {
  }

  predicate IsPrefix(t: Token) { t == Op('-') || t == Op('+') || t == Kw(NOT) }

  // One case of the innermost level each.

  lemma {:induction false} PrimaryPrefix(toks: seq<Token>, cur: nat, depth: nat, vars: seq<Var>)
    requires Terminated(toks) && cur < |toks| && IsPrefix(toks[cur])
    ensures cur + 1 < |toks|
    ensures var r := Eval(PRIMARY_LEVEL, toks, cur + 1, depth, vars);
            Primary(toks, cur, depth, vars)
            == r.(v := if toks[cur] == Op('-') then Wrap64(-r.v) else if toks[cur] == Op('+') then r.v else Truth(r.v == 0))
  {
    hide Eval;
  }

  lemma {:induction false} PrimaryNum(toks: seq<Token>, cur: nat, depth: nat, vars: seq<Var>)
    requires Terminated(toks) && cur < |toks| && toks[cur].Num?
    ensures Primary(toks, cur, depth, vars) == Ev(toks[cur].n, cur + 1, vars, true)
  {
  }

  lemma {:induction false} PrimaryId(toks: seq<Token>, cur: nat, depth: nat, vars: seq<Var>)
    requires Terminated(toks) && cur < |toks| && toks[cur].Id?
    ensures Primary(toks, cur, depth, vars) == Variable(toks, cur, toks[cur].name, vars)
  {
    hide Variable;
  }

  lemma {:induction false} PrimaryNone(toks: seq<Token>, cur: nat, depth: nat, vars: seq<Var>)
    requires Terminated(toks) && cur < |toks| && !toks[cur].Num? && !toks[cur].Id?
    requires toks[cur] != Op('(') && !IsPrefix(toks[cur])
    ensures Primary(toks, cur, depth, vars) == Ev(0, cur, vars, false)
  {
    hide Eval, Variable;
  }

  class Interpreter {
    const toks: seq<Token>
    var cur: nat
    var vars: seq<Var>
    var frames: seq<Frame>
    var out: string
    var ok: bool
    var running: bool
    var evalDepth: nat

    ghost predicate Ready()
      reads this
    {
      Terminated(toks) && cur < |toks|
    }

    ghost function State(): St
      reads this
    {
      St(cur, vars, frames, out, ok, running)
    }

    constructor (program: seq<Token>)
      requires Terminated(program)
      ensures toks == program && Ready() && State() == Start() && evalDepth == 0
    {
      toks := program;
      cur, vars, frames, out, ok, running, evalDepth := 0, [], [], "", true, true, 0;
    }

    /** The outcome e of an evaluation has been put in place, and nothing else changed. */
    twostate predicate Evaluated(v: int, e: Ev)
      reads this
    {
      && v == e.v && cur == e.cur && vars == e.vars && ok == (old(ok) && e.ok)
      && frames == old(frames) && out == old(out) && running == old(running) && evalDepth == old(evalDepth)
    }

    // ---- expressions ----

    /** `eval_or`, which is also `eval_expr` */
    method EvalOr() returns (lhs: int)
      requires Ready()
      modifies this
      ensures Ready() && Evaluated(lhs, Eval(OR_LEVEL, toks, old(cur), old(evalDepth), old(vars)))
      decreases |toks| - cur, PRIMARY_LEVEL - OR_LEVEL
    {
      hide Eval, Rest;
      EvalDown(OR_LEVEL, toks, cur, evalDepth, vars);
      lhs := EvalAnd();
      ghost var good := Eval(AND_LEVEL, toks, old(cur), evalDepth, old(vars)).ok;
      while toks[cur] == Kw(OR)
        invariant Ready() && old(cur) <= cur && evalDepth == old(evalDepth) && ok == (old(ok) && good)
        invariant frames == old(frames) && out == old(out) && running == old(running)
        invariant Rest(OR_LEVEL, Ev(lhs, cur, vars, good), toks, evalDepth)
                  == Eval(OR_LEVEL, toks, old(cur), old(evalDepth), old(vars))
        decreases |toks| - cur
      {
        RestStep(OR_LEVEL, Ev(lhs, cur, vars, good), toks, evalDepth, Or);
        cur := cur + 1;
        good := good && Eval(AND_LEVEL, toks, cur, evalDepth, vars).ok;
        var r := EvalAnd();
        lhs := Truth(lhs != 0 || r != 0);
      }
      RestEnds(OR_LEVEL, Ev(lhs, cur, vars, good), toks, evalDepth);
    }

    /** `eval_and` */
    method EvalAnd() returns (lhs: int)
      requires Ready()
      modifies this
      ensures Ready() && Evaluated(lhs, Eval(AND_LEVEL, toks, old(cur), old(evalDepth), old(vars)))
      decreases |toks| - cur, PRIMARY_LEVEL - AND_LEVEL
    {
      hide Eval, Rest;
      EvalDown(AND_LEVEL, toks, cur, evalDepth, vars);
      lhs := EvalNot();
      ghost var good := Eval(NOT_LEVEL, toks, old(cur), evalDepth, old(vars)).ok;
      while toks[cur] == Kw(AND)
        invariant Ready() && old(cur) <= cur && evalDepth == old(evalDepth) && ok == (old(ok) && good)
        invariant frames == old(frames) && out == old(out) && running == old(running)
        invariant Rest(AND_LEVEL, Ev(lhs, cur, vars, good), toks, evalDepth)
                  == Eval(AND_LEVEL, toks, old(cur), old(evalDepth), old(vars))
        decreases |toks| - cur
      {
        RestStep(AND_LEVEL, Ev(lhs, cur, vars, good), toks, evalDepth, And);
        cur := cur + 1;
        good := good && Eval(NOT_LEVEL, toks, cur, evalDepth, vars).ok;
        var r := EvalNot();
        lhs := Truth(lhs != 0 && r != 0);
      }
      RestEnds(AND_LEVEL, Ev(lhs, cur, vars, good), toks, evalDepth);
    }

    /** `eval_not` */
    method EvalNot() returns (v: int)
      requires Ready()
      modifies this
      ensures Ready() && Evaluated(v, Eval(NOT_LEVEL, toks, old(cur), old(evalDepth), old(vars)))
      decreases |toks| - cur, PRIMARY_LEVEL - NOT_LEVEL
    {
      if toks[cur] == Kw(NOT) {
        cur := cur + 1;
        v := EvalNot();
        v := Truth(v == 0);
      } else {
        v := EvalCmp();
      }
    }

    /** A binary operator on two numbers; a divide fault stops the program. */
    method Operate(op: BinOp, a: int, b: int) returns (v: int)
      modifies this`ok
      ensures v == (match Apply(op, a, b) case Some(n) => n case None => 0)
      ensures ok == (old(ok) && Apply(op, a, b).Some?)
    {
      match Apply(op, a, b)
      case Some(n) => v := n;
      case None => v, ok := 0, false;
    }

    /** `eval_cmp` */
    method EvalCmp() returns (lhs: int)
      requires Ready()
      modifies this
      ensures Ready() && Evaluated(lhs, Eval(CMP_LEVEL, toks, old(cur), old(evalDepth), old(vars)))
      decreases |toks| - cur, PRIMARY_LEVEL - CMP_LEVEL
    {
      hide Eval, Rest, OpAt, Apply;
      EvalDown(CMP_LEVEL, toks, cur, evalDepth, vars);
      lhs := EvalAdd();
      ghost var good := Eval(ADD_LEVEL, toks, old(cur), evalDepth, old(vars)).ok;
      while OpAt(CMP_LEVEL, toks[cur]).Some?
        invariant Ready() && old(cur) <= cur && evalDepth == old(evalDepth) && ok == (old(ok) && good)
        invariant frames == old(frames) && out == old(out) && running == old(running)
        invariant Rest(CMP_LEVEL, Ev(lhs, cur, vars, good), toks, evalDepth)
                  == Eval(CMP_LEVEL, toks, old(cur), old(evalDepth), old(vars))
        decreases |toks| - cur
      {
        ghost var l := Ev(lhs, cur, vars, good);
        var op := OpAt(CMP_LEVEL, toks[cur]).value;
        RestStep(CMP_LEVEL, l, toks, evalDepth, op);
        cur := cur + 1;
        good := good && Eval(ADD_LEVEL, toks, cur, evalDepth, vars).ok;
        var r := EvalAdd();
        good := good && Apply(op, lhs, r).Some?;
        lhs := Operate(op, lhs, r);
      }
      RestEnds(CMP_LEVEL, Ev(lhs, cur, vars, good), toks, evalDepth);
    }

    /** `eval_add` */
    method EvalAdd() returns (lhs: int)
      requires Ready()
      modifies this
      ensures Ready() && Evaluated(lhs, Eval(ADD_LEVEL, toks, old(cur), old(evalDepth), old(vars)))
      decreases |toks| - cur, PRIMARY_LEVEL - ADD_LEVEL
    {
      hide Eval, Rest, OpAt, Apply;
      EvalDown(ADD_LEVEL, toks, cur, evalDepth, vars);
      lhs := EvalMul();
      ghost var good := Eval(MUL_LEVEL, toks, old(cur), evalDepth, old(vars)).ok;
      while OpAt(ADD_LEVEL, toks[cur]).Some?
        invariant Ready() && old(cur) <= cur && evalDepth == old(evalDepth) && ok == (old(ok) && good)
        invariant frames == old(frames) && out == old(out) && running == old(running)
        invariant Rest(ADD_LEVEL, Ev(lhs, cur, vars, good), toks, evalDepth)
                  == Eval(ADD_LEVEL, toks, old(cur), old(evalDepth), old(vars))
        decreases |toks| - cur
      {
        ghost var l := Ev(lhs, cur, vars, good);
        var op := OpAt(ADD_LEVEL, toks[cur]).value;
        RestStep(ADD_LEVEL, l, toks, evalDepth, op);
        cur := cur + 1;
        good := good && Eval(MUL_LEVEL, toks, cur, evalDepth, vars).ok;
        var r := EvalMul();
        good := good && Apply(op, lhs, r).Some?;
        lhs := Operate(op, lhs, r);
      }
      RestEnds(ADD_LEVEL, Ev(lhs, cur, vars, good), toks, evalDepth);
    }

    /** `eval_mul` */
    method EvalMul() returns (lhs: int)
      requires Ready()
      modifies this
      ensures Ready() && Evaluated(lhs, Eval(MUL_LEVEL, toks, old(cur), old(evalDepth), old(vars)))
      decreases |toks| - cur, PRIMARY_LEVEL - MUL_LEVEL
    {
      hide Eval, Rest, OpAt, Apply;
      EvalDown(MUL_LEVEL, toks, cur, evalDepth, vars);
      lhs := EvalPow();
      ghost var good := Eval(POW_LEVEL, toks, old(cur), evalDepth, old(vars)).ok;
      while OpAt(MUL_LEVEL, toks[cur]).Some?
        invariant Ready() && old(cur) <= cur && evalDepth == old(evalDepth) && ok == (old(ok) && good)
        invariant frames == old(frames) && out == old(out) && running == old(running)
        invariant Rest(MUL_LEVEL, Ev(lhs, cur, vars, good), toks, evalDepth)
                  == Eval(MUL_LEVEL, toks, old(cur), old(evalDepth), old(vars))
        decreases |toks| - cur
      {
        ghost var l := Ev(lhs, cur, vars, good);
        var op := OpAt(MUL_LEVEL, toks[cur]).value;
        RestStep(MUL_LEVEL, l, toks, evalDepth, op);
        cur := cur + 1;
        good := good && Eval(POW_LEVEL, toks, cur, evalDepth, vars).ok;
        var r := EvalPow();
        good := good && Apply(op, lhs, r).Some?;
        lhs := Operate(op, lhs, r);
      }
      RestEnds(MUL_LEVEL, Ev(lhs, cur, vars, good), toks, evalDepth);
    }

    /** `eval_pow` */
    method EvalPow() returns (lhs: int)
      requires Ready()
      modifies this
      ensures Ready() && Evaluated(lhs, Eval(POW_LEVEL, toks, old(cur), old(evalDepth), old(vars)))
      decreases |toks| - cur, PRIMARY_LEVEL - POW_LEVEL
    {
      hide Eval, PowRest, Power;
      EvalDown(POW_LEVEL, toks, cur, evalDepth, vars);
      lhs := EvalPrimary();
      ghost var good := Eval(PRIMARY_LEVEL, toks, old(cur), evalDepth, old(vars)).ok;
      while toks[cur] == Op('^')
        invariant Ready() && old(cur) <= cur && evalDepth == old(evalDepth) && ok == (old(ok) && good)
        invariant frames == old(frames) && out == old(out) && running == old(running)
        invariant PowRest(Ev(lhs, cur, vars, good), toks, evalDepth)
                  == Eval(POW_LEVEL, toks, old(cur), old(evalDepth), old(vars))
        decreases |toks| - cur
      {
        PowStep(Ev(lhs, cur, vars, good), toks, evalDepth);
        cur := cur + 1;
        good := good && Eval(POW_LEVEL, toks, cur, evalDepth, vars).ok;
        var r := EvalPow();
        good := good && Power(lhs, r).Some?;
        match Power(lhs, r)
        case Some(n) => lhs := n;
        case None => lhs, ok := 0, false;
      }
      PowEnds(Ev(lhs, cur, vars, good), toks, evalDepth);
    }

    /** `eval_primary`: the depth guard around the innermost level. */
    method EvalPrimary() returns (v: int)
      requires Ready()
      modifies this
      ensures Ready() && Evaluated(v, Eval(PRIMARY_LEVEL, toks, old(cur), old(evalDepth), old(vars)))
      decreases |toks| - cur, 0, 2
    {
      if evalDepth >= MAX_EVAL_DEPTH {
        v, ok := 0, false;
      } else {
        evalDepth := evalDepth + 1;
        v := PrimaryInner();
        evalDepth := evalDepth - 1;
      }
    }

    /** What stands in parentheses. */
    method EvalParenthesis() returns (v: int)
      requires Ready() && toks[cur] == Op('(')
      modifies this
      ensures Ready() && Evaluated(v, Primary(toks, old(cur), old(evalDepth), old(vars)))
      decreases |toks| - cur, 0, 0
    {
      hide Eval, Primary;
      PrimaryParen(toks, cur, evalDepth, vars);
      cur := cur + 1;
      v := EvalOr();
      if toks[cur] == Op(')') {
        cur := cur + 1;
      }
    }

    /** A sign or NOT in front of a primary. */
    method EvalPrefix() returns (v: int)
      requires Ready() && IsPrefix(toks[cur])
      modifies this
      ensures Ready() && Evaluated(v, Primary(toks, old(cur), old(evalDepth), old(vars)))
      decreases |toks| - cur, 0, 0
    {
      hide Eval, Primary, Wrap64, Truth;
      PrimaryPrefix(toks, cur, evalDepth, vars);
      var t := toks[cur];
      cur := cur + 1;
      v := EvalPrimary();
      if t == Op('-') {
        v := Wrap64(-v);
      } else if t == Kw(NOT) {
        v := Truth(v == 0);
      }
    }

    /** `eval_primary_inner` */
    method PrimaryInner() returns (v: int)
      requires Ready()
      modifies this
      ensures Ready() && Evaluated(v, Primary(toks, old(cur), old(evalDepth), old(vars)))
      decreases |toks| - cur, 0, 1
    {
      hide Eval, Primary, Variable, GetVar, IsPrefix;
      if toks[cur].Num? {
        PrimaryNum(toks, cur, evalDepth, vars);
        v, cur := toks[cur].n, cur + 1;
      } else if toks[cur] == Op('(') {
        v := EvalParenthesis();
      } else if IsPrefix(toks[cur]) {
        v := EvalPrefix();
      } else if toks[cur].Id? {
        PrimaryId(toks, cur, evalDepth, vars);
        v := ReadVariable(toks[cur].name);
      } else {
        PrimaryNone(toks, cur, evalDepth, vars);
        v, ok := 0, false;
      }
    }

    method ReadVariable(name: string) returns (v: int)
      requires Ready() && toks[cur] == Id(name)
      modifies this
      ensures Ready() && Evaluated(v, Variable(toks, old(cur), name, old(vars)))
    {
      cur := cur + 1;
      v := 0;
      if toks[cur] == Op('(') {
        ok := false;
      } else {
        match GetVar(vars, name)
        case None => ok := false;
        case Some((vs, i)) => vars, v := vs, vs[i].n;
      }
    }

    /** `eval_expr` at statement level, where no primary is being evaluated. */
    method EvalExpr() returns (v: int)
      requires Ready() && evalDepth == 0
      modifies this
      ensures Ready() && (v, State()) == EvalAt(toks, old(State())) && evalDepth == 0
    {
      v := EvalOr();
    }

    // ---- statements ----

    /** `exec_print`, behind the keyword */
    method ExecPrint()
      requires Ready() && evalDepth == 0
      modifies this
      ensures Ready() && State() == PrintLoop(toks, old(State()), 0, false) && evalDepth == 0
    {
      hide Eval, EvalAt, NumText, Blanks;
      var column, lastWasSep := 0, false;
      while !PrintEnds(toks[cur])
        invariant Ready() && evalDepth == 0 && column >= 0
        invariant PrintLoop(toks, State(), column, lastWasSep) == PrintLoop(toks, old(State()), 0, false)
        decreases |toks| - cur
      {
        if toks[cur] == Op(';') {
          cur, lastWasSep := cur + 1, true;
        } else if toks[cur] == Op(',') {
          cur := cur + 1;
          var target := NextTab(column);
          PadTo(column, target);
          column, lastWasSep := target, true;
        } else {
          var v := EvalExpr();
          if !ok {
            return;
          }
          out := out + NumText(v);
          column, lastWasSep := column + |NumText(v)|, false;
        }
      }
      if !lastWasSep {
        out := out + "\n";
      }
    }

    /** Blanks up to a column. */
    method PadTo(column: nat, target: nat)
      requires column <= target
      modifies this`out
      ensures out == old(out) + Blanks(target - column)
    {
      var c := column;
      assert Blanks(0) == "";
      while c < target
        invariant column <= c <= target && out == old(out) + Blanks(c - column)
      {
        assert Blanks(c + 1 - column) == Blanks(c - column) + " ";
        out := out + " ";
        c := c + 1;
      }
    }

    /** `exec_assign`, at the name */
    method ExecAssign()
      requires Ready() && evalDepth == 0
      modifies this
      ensures Ready() && State() == Assign(toks, old(State())) && evalDepth == 0
    {
      hide Eval;
      if !toks[cur].Id? {
        ok := false;
        return;
      }
      var found := GetVar(vars, toks[cur].name);
      cur := cur + 1;
      if found == None {
        ok := false;
        return;
      }
      var i := found.value.1;
      vars := found.value.0;
      if toks[cur] != Op('=') && toks[cur] != Op('E') {
        ok := false;
        return;
      }
      cur := cur + 1;
      var v := EvalExpr();
      if ok {
        vars := vars[i := vars[i].(n := v)];
      }
    }

    method ExecSimpleStatement()
      requires Ready() && evalDepth == 0
      modifies this
      ensures Ready() && State() == ExecSimple(toks, old(State())) && evalDepth == 0
    {
      hide PrintLoop, Assign;
      match toks[cur] {
        case Newline =>
        case Eof =>
        case Kw(PRINT) => cur := cur + 1; ExecPrint();
        case Op('?') => cur := cur + 1; ExecPrint();
        case Kw(LET) => cur := cur + 1; ExecAssign();
        case Id(_) => ExecAssign();
        case _ => ok := false;
      }
    }

    method SkipLine()
      requires Ready()
      modifies this`cur
      ensures Ready() && cur == SkipToNewline(toks, old(cur))
    {
      while toks[cur] != Newline && toks[cur] != Eof
        invariant Ready() && SkipToNewline(toks, cur) == SkipToNewline(toks, old(cur))
        decreases |toks| - cur
      {
        cur := cur + 1;
      }
    }

    method SkipBranch()
      requires Ready()
      modifies this`cur
      ensures Ready() && cur == SkipFalseBranch(toks, old(cur))
    {
      while toks[cur] != Newline && toks[cur] != Eof && toks[cur] != Kw(ELSE) && toks[cur] != Kw(ELSEIF)
        invariant Ready() && SkipFalseBranch(toks, cur) == SkipFalseBranch(toks, old(cur))
        decreases |toks| - cur
      {
        cur := cur + 1;
      }
    }

    /** Statements separated by colons. */
    method ExecBranch()
      requires Ready() && evalDepth == 0
      modifies this
      ensures Ready() && State() == Branch(toks, old(State())) && evalDepth == 0
    {
      hide ExecSimple;
      ExecSimpleStatement();
      while toks[cur] == Op(':')
        invariant Ready() && evalDepth == 0
        invariant Branch(toks, old(State()))
                  == if toks[cur] == Op(':') then Branch(toks, State().(cur := cur + 1)) else State()
        decreases |toks| - cur
      {
        cur := cur + 1;
        ExecSimpleStatement();
      }
    }

    /** `exec_if_chain`, at the condition */
    method ExecIfChain()
      requires Ready() && evalDepth == 0
      modifies this
      ensures Ready() && State() == IfChain(toks, old(State())) && evalDepth == 0
    {
      hide Eval, Branch, SkipFalseBranch, SkipToNewline;
      while true
        invariant Ready() && evalDepth == 0
        invariant IfChain(toks, State()) == IfChain(toks, old(State()))
        decreases |toks| - cur
      {
        var cond := EvalExpr();
        if toks[cur] != Kw(THEN) {
          ok := false;
          return;
        }
        cur := cur + 1;
        if cond != 0 {
          if toks[cur].Num? {
            ok := false;
            return;
          }
          ExecBranch();
          SkipLine();
          return;
        }
        SkipBranch();
        if toks[cur] == Kw(ELSEIF) {
          cur := cur + 1;
        } else {
          if toks[cur] == Kw(ELSE) {
            cur := cur + 1;
            ExecBranch();
          }
          return;
        }
      }
    }

    /** The FOR statement, behind the keyword */
    method ExecForStatement()
      requires Valid(toks, State()) && evalDepth == 0
      modifies this
      ensures Ready() && State() == ExecFor(toks, old(State())) && evalDepth == 0
    {
      hide Eval, ForLimit;
      if !toks[cur].Id? {
        ok := false;
        return;
      }
      var name := toks[cur].name;
      cur := cur + 1;
      if toks[cur] != Op('=') {
        ok := false;
        return;
      }
      cur := cur + 1;
      var start := EvalExpr();
      ExecForLimit(name, start);
    }

    /** FOR from the keyword TO on */
    method ExecForLimit(name: string, start: int)
      requires Valid(toks, State()) && evalDepth == 0
      modifies this
      ensures Ready() && State() == ForLimit(toks, old(State()), name, start) && evalDepth == 0
    {
      hide Eval;
      if toks[cur] != Kw(TO) {
        ok := false;
        return;
      }
      cur := cur + 1;
      var limit := EvalExpr();
      var step := SCALE;
      if toks[cur] == Kw(STEP) {
        cur := cur + 1;
        step := EvalExpr();
      }
      PushFor(name, start, limit, step);
    }

    method PushFor(name: string, start: int, limit: int, step: int)
      requires Ready() && evalDepth == 0
      modifies this
      ensures Ready() && State() == EnterFor(old(State()), name, start, limit, step) && evalDepth == 0
    {
      var found := GetVar(vars, name);
      if found == None {
        ok := false;
        return;
      }
      var i := found.value.1;
      vars := SetVar(found.value.0, i, start);
      if |frames| >= MAX_FRAMES {
        ok := false;
        return;
      }
      frames := frames + [ForFrame(cur, i, limit, step)];
    }

    method ExecNextStatement()
      requires Valid(toks, State()) && evalDepth == 0
      modifies this
      ensures Ready() && State() == ExecNext(toks, old(State())) && evalDepth == 0
    {
      if frames == [] || !frames[|frames| - 1].ForFrame? {
        ok := false;
        return;
      }
      var f := frames[|frames| - 1];
      if toks[cur].Id? {
        cur := cur + 1;
      }
      var v := Wrap64(vars[f.v].n + f.step);
      vars := SetVar(vars, f.v, v);
      if Continues(v, f.limit, f.step) {
        cur := f.tok;
      } else {
        frames := frames[..|frames| - 1];
      }
    }

    /** The scan for the matching WEND, with its depth count. */
    method SkipLoop()
      requires Ready()
      modifies this`cur
      ensures Ready() && cur == SkipToWend(toks, old(cur), 1)
    {
      var depth := 1;
      while toks[cur] != Eof
        invariant Ready() && depth > 0
        invariant SkipToWend(toks, cur, depth) == SkipToWend(toks, old(cur), 1)
        decreases |toks| - cur
      {
        if toks[cur] == Kw(WHILE) {
          depth := depth + 1;
        } else if toks[cur] == Kw(WEND) {
          depth := depth - 1;
          if depth == 0 {
            cur := cur + 1;
            return;
          }
        }
        cur := cur + 1;
      }
    }

    method ExecWhileStatement()
      requires Valid(toks, State()) && evalDepth == 0
      modifies this
      ensures Ready() && State() == ExecWhile(toks, old(State())) && evalDepth == 0
    {
      hide Eval, SkipToWend;
      if |frames| >= MAX_FRAMES {
        ok := false;
        return;
      }
      ghost var before := frames;
      frames := frames + [WhileFrame(cur)];
      var cond := EvalExpr();
      if cond == 0 {
        SkipLoop();
        frames := frames[..|frames| - 1];
        assert frames == before;
      }
    }

    method ExecWendStatement()
      requires Valid(toks, State()) && evalDepth == 0
      modifies this
      ensures Ready() && State() == ExecWend(toks, old(State())) && evalDepth == 0
    {
      hide Eval;
      if frames == [] || !frames[|frames| - 1].WhileFrame? {
        ok := false;
        return;
      }
      var afterWend := cur;
      cur := frames[|frames| - 1].tok;
      var cond := EvalExpr();
      if cond == 0 {
        frames, cur := frames[..|frames| - 1], afterWend;
      }
    }

    method ExecUntilStatement()
      requires Valid(toks, State()) && evalDepth == 0
      modifies this
      ensures Ready() && State() == ExecUntil(toks, old(State())) && evalDepth == 0
    {
      hide Eval;
      if frames == [] || !frames[|frames| - 1].RepeatFrame? {
        ok := false;
        return;
      }
      var cond := EvalExpr();
      if cond != 0 {
        frames := frames[..|frames| - 1];
      } else {
        cur := frames[|frames| - 1].tok;
      }
    }

    /** `exec_statement` */
    method Exec()
      requires Valid(toks, State()) && evalDepth == 0
      modifies this
      ensures Ready() && State() == ExecStatement(toks, old(State())) && evalDepth == 0
    {
      hide IfChain, ExecFor, ExecNext, ExecWhile, ExecWend, ExecUntil, ExecSimple;
      match toks[cur] {
        case Newline =>
        case Eof =>
        case Kw(IF) => cur := cur + 1; ExecIfChain();
        case Kw(FOR) => cur := cur + 1; ExecForStatement();
        case Kw(NEXT) => cur := cur + 1; ExecNextStatement();
        case Kw(WHILE) => cur := cur + 1; ExecWhileStatement();
        case Kw(WEND) => cur := cur + 1; ExecWendStatement();
        case Kw(REPEAT) =>
          cur := cur + 1;
          if |frames| >= MAX_FRAMES {
            ok := false;
          } else {
            frames := frames + [RepeatFrame(cur)];
          }
        case Kw(UNTIL) => cur := cur + 1; ExecUntilStatement();
        case Kw(REM) => SkipLine();
        case Kw(STOP) => cur, running := cur + 1, false;
        case _ => ExecSimpleStatement();
      }
    }

    /** One round of `run_loop`. */
    method Round()
      requires Valid(toks, State()) && evalDepth == 0 && !Halted(toks, State())
      modifies this
      ensures Valid(toks, State()) && State() == Step(toks, old(State())) && evalDepth == 0
    {
      hide ExecStatement;
      if toks[cur] == Newline || toks[cur] == Op(':') {
        cur := cur + 1;
      } else {
        Exec();
      }
    }

    /** `run_loop`, stopped after `rounds` rounds because a program need not end. */
    method RunLoop(rounds: nat)
      requires Valid(toks, State()) && evalDepth == 0
      modifies this
      ensures Valid(toks, State()) && State() == Run(toks, old(State()), rounds) && evalDepth == 0
    {
      hide Step;
      var i := 0;
      while i < rounds && ok && running && toks[cur] != Eof
        invariant i <= rounds && Valid(toks, State()) && evalDepth == 0
        invariant Run(toks, State(), rounds - i) == Run(toks, old(State()), rounds)
      {
        Round();
        i := i + 1;
      }
      if i < rounds {
        HaltedStays(toks, State(), rounds - i);
      }
    }

    /** `run_loop` to its end, on a run that has one. */
    method RunToEnd(ghost last: nat)
      requires Valid(toks, State()) && evalDepth == 0 && Halted(toks, Run(toks, State(), last))
      modifies this
      ensures Valid(toks, State()) && State() == Run(toks, old(State()), last) && Halted(toks, State())
    {
      hide Step;
      ghost var left: nat := last;
      while ok && running && toks[cur] != Eof
        invariant left <= last && Valid(toks, State()) && evalDepth == 0
        invariant Run(toks, State(), left) == Run(toks, old(State()), last)
        invariant Halted(toks, Run(toks, State(), left))
        decreases left
      {
        assert left > 0;
        Round();
        left := left - 1;
      }
      HaltedStays(toks, State(), left);
    }
  }

  /** The end of a program's meaning as the interpreter shows it. */
  ghost predicate Shows(t: St, b: Block, r: Result, names: set<string>) {
    match r
    case Ends(s) => t.cur == |BlockTokens(b)| && t.frames == [] && Match(t, s, names)
    case Faults => !t.ok
    case Runs => false
  }

  /** Where the run of a program whose meaning ends or faults comes to a halt. */
  lemma {:induction false} HaltingRound(b: Block, k: nat, names: set<string>) returns (n: nat)
    requires NamesFit(names) && BlockOk(b, names, MAX_FRAMES)
    requires !BlockMeaning(b, Sto(map[], ""), k).Runs?
    ensures var toks := ProgramTokens(b);
            Valid(toks, Start()) && Halted(toks, Run(toks, Start(), n))
            && Shows(Run(toks, Start(), n), b, BlockMeaning(b, Sto(map[], ""), k), names)
  {
    hide BlockOk, NamesFit, BlockTokens, Match, BlockMeaning, Step;
    var toks := ProgramTokens(b);
    ProgramRuns(b, k, names);
    match BlockMeaning(b, Sto(map[], ""), k)
    case Ends(s) =>
      n :| Arrives(toks, Start(), n, |BlockTokens(b)|, [], s, names);
      assert toks[|BlockTokens(b)|] == Eof;
    case Faults =>
      n :| !Run(toks, Start(), n).ok;
  }

  /** The interpreter, run on the tokens of a well-formed program whose meaning ends, comes
      to an end of its own with the store and the output of that meaning and its frame stack
      empty; where the meaning faults, it stops with an error. */
  method RunProgram(program: seq<Token>, ghost b: Block, ghost k: nat, ghost names: set<string>) returns (it: Interpreter)
    requires program == ProgramTokens(b) && NamesFit(names) && BlockOk(b, names, MAX_FRAMES)
    requires !BlockMeaning(b, Sto(map[], ""), k).Runs?
    ensures fresh(it) && it.toks == program
    ensures Shows(it.State(), b, BlockMeaning(b, Sto(map[], ""), k), names)
  {
    hide BlockOk, NamesFit, BlockTokens, Match, BlockMeaning, Step, Run, Halted, Shows;
    it := new Interpreter(program);
    ghost var n := HaltingRound(b, k, names);
    it.RunToEnd(n);
  }
}
