/**
 Single statements of GridBASIC at the cursor, token by token: what each does to the machine and
 which are reported as errors.
 */
module StatementLaws {
  import opened Common
  import opened Numbers
  import opened BasicEval
  import opened BasicExpr
  import opened BasicMachine
  import opened GrammarLaws

  /** A running machine in front of a token. */
  predicate Ready(toks: seq<Token>, st: St) { Valid(toks, st) && st.ok && st.running }

  /** A number before the end of a line is its value. */
  lemma {:induction false} NumberValue(toks: seq<Token>, cur: nat, a: int, p: nat, vars: seq<Var>)
    requires Terminated(toks) && cur + 1 < |toks| && toks[cur] == Num(a) && StopsFrom(0, toks[cur + 1]) && p <= 7
    ensures Eval(p, toks, cur, 0, vars) == Ev(a, cur + 1, vars, true)
    decreases 7 - p
  {
    hide Eval, Rest, PowRest, StopsFrom;
    StopsLater(0, p, toks[cur + 1]);
    if p == 7 {
      EvalPrimary(toks, cur, 0, vars);
    } else {
      NumberValue(toks, cur, a, p + 1, vars);
      EvalDown(p, toks, cur, 0, vars);
      LoopsStop(p, Ev(a, cur + 1, vars, true), toks, 0);
    }
  }

  lemma {:induction false} StopsLater(p: nat, q: nat, t: Token)
    requires p <= q && StopsFrom(p, t)
    ensures StopsFrom(q, t)
  {
  }

  lemma {:induction false} LineStops()
    ensures StopsFrom(0, Newline) && StopsFrom(0, Kw(THEN)) && StopsFrom(0, Kw(TO))
  {
    forall q: nat ensures OpAt(q, Newline) == None && OpAt(q, Kw(THEN)) == None && OpAt(q, Kw(TO)) == None { NotOperators(q); }
    hide OpAt;
  }

  lemma {:induction false} NotOperators(q: nat)
    ensures OpAt(q, Newline) == None && OpAt(q, Kw(THEN)) == None && OpAt(q, Kw(TO)) == None
  {
  }

  /** The machine steps over the ends of lines and colons, and stays at the end of the program. */
  lemma {:induction false} Separators(toks: seq<Token>, st: St)
    requires Ready(toks, st)
    ensures toks[st.cur] == Newline || toks[st.cur] == Op(':') ==> Step(toks, st) == st.(cur := st.cur + 1)
    ensures toks[st.cur] == Eof ==> Step(toks, st) == st
  {
    hide ExecStatement;
  }

  /** PRINT, or a question mark, shows a number and ends the line. */
  lemma {:induction false} PrintsNumber(toks: seq<Token>, st: St, a: int)
    requires Ready(toks, st) && (toks[st.cur] == Kw(PRINT) || toks[st.cur] == Op('?'))
    requires st.cur + 2 < |toks| && toks[st.cur + 1] == Num(a) && toks[st.cur + 2] == Newline
    ensures Step(toks, st) == st.(cur := st.cur + 2, out := st.out + NumText(a) + "\n")
  {
    hide Eval, NumText, StopsFrom;
    LineStops();
    NumberValue(toks, st.cur + 1, a, 0, st.vars);
    var s1 := st.(cur := st.cur + 1);
    var s2 := st.(cur := st.cur + 2, out := st.out + NumText(a));
    assert PrintLoop(toks, s1, 0, false) == PrintLoop(toks, s2, |NumText(a)|, false);
    assert PrintLoop(toks, s2, |NumText(a)|, false) == s2.(out := s2.out + "\n");
  }

  /** Either alone ends the line, and a semicolon behind it keeps the line open. */
  lemma {:induction false} PrintsBlank(toks: seq<Token>, st: St)
    requires Ready(toks, st) && (toks[st.cur] == Kw(PRINT) || toks[st.cur] == Op('?'))
    ensures st.cur + 1 < |toks| && toks[st.cur + 1] == Newline ==> Step(toks, st) == st.(cur := st.cur + 1, out := st.out + "\n")
    ensures st.cur + 2 < |toks| && toks[st.cur + 1] == Op(';') && toks[st.cur + 2] == Newline ==> Step(toks, st) == st.(cur := st.cur + 2)
  {
    hide Eval;
    if st.cur + 2 < |toks| && toks[st.cur + 1] == Op(';') && toks[st.cur + 2] == Newline {
      assert PrintLoop(toks, st.(cur := st.cur + 1), 0, false) == PrintLoop(toks, st.(cur := st.cur + 2), 0, true);
    }
  }

  /** An assignment, with or without LET, by = or :=, sets its variable and no other. */
  lemma {:induction false} AssignsNumber(toks: seq<Token>, st: St, x: string, a: int)
    requires Ready(toks, st) && PlainName(x) && |x| <= 23
    requires var k := if toks[st.cur] == Kw(LET) then st.cur + 1 else st.cur;
             && k + 3 < |toks| && toks[k] == Id(x) && (toks[k + 1] == Op('=') || toks[k + 1] == Op('E'))
             && toks[k + 2] == Num(a) && toks[k + 3] == Newline
    requires |st.vars| < 128
    ensures var r, k := Step(toks, st), if toks[st.cur] == Kw(LET) then st.cur + 1 else st.cur;
            && r == st.(cur := k + 3, vars := r.vars)
            && forall y: string :: BasicExpr.Lookup(r.vars, y) == if y == x then a else BasicExpr.Lookup(st.vars, y)
  {
    hide Eval, StopsFrom, PlainName, GetVar, Assign, BasicExpr.Lookup;
    LineStops();
    var k := if toks[st.cur] == Kw(LET) then st.cur + 1 else st.cur;
    SetSays(st.vars, x, a);
    AssignIs(toks, st.(cur := k), x, a);
  }

  lemma {:induction false} AssignIs(toks: seq<Token>, st: St, x: string, a: int)
    requires Terminated(toks) && st.ok && GetVar(st.vars, x).Some? && StopsFrom(0, Newline)
    requires var k := st.cur;
             k + 3 < |toks| && toks[k] == Id(x) && (toks[k + 1] == Op('=') || toks[k + 1] == Op('E')) && toks[k + 2] == Num(a) && toks[k + 3] == Newline
    ensures var (vs, i) := GetVar(st.vars, x).value;
            Assign(toks, st) == st.(cur := st.cur + 3, vars := SetVar(vs, i, a))
  {
    hide Eval, StopsFrom, GetVar, SetVar;
    NumberValue(toks, st.cur + 2, a, 0, GetVar(st.vars, x).value.0);
  }

  lemma {:induction false} SetSays(vars: seq<Var>, x: string, a: int)
    requires PlainName(x) && |x| <= 23 && |vars| < 128
    ensures GetVar(vars, x).Some?
    ensures var (vs, i) := GetVar(vars, x).value;
            forall y: string :: BasicExpr.Lookup(SetVar(vs, i, a), y) == if y == x then a else BasicExpr.Lookup(vars, y)
  {
    hide PlainName;
    assert x[..|x|] == x;
    var (vs, i) := GetVar(vars, x).value;
    forall y: string ensures BasicExpr.Lookup(SetVar(vs, i, a), y) == if y == x then a else BasicExpr.Lookup(vars, y) {
      FindLast(vars, Var(x, 0), y);
      SetFind(vs, i, a, y);
    }
  }

  lemma {:induction false} SetFind(vars: seq<Var>, i: nat, a: int, y: string)
    requires i < |vars|
    ensures FindVar(SetVar(vars, i, a), y) == FindVar(vars, y)
  {
    if i > 0 { assert SetVar(vars, i, a)[1..] == SetVar(vars[1..], i - 1, a); SetFind(vars[1..], i - 1, a, y); }
    else { assert SetVar(vars, i, a)[1..] == vars[1..]; }
  }

  /** A comment reaches to the end of its line, and STOP stops the machine. */
  lemma {:induction false} CommentOrStop(toks: seq<Token>, st: St)
    requires Ready(toks, st)
    ensures toks[st.cur] == Kw(REM) ==>
              var r := Step(toks, st);
              && r == st.(cur := r.cur) && st.cur < r.cur < |toks| && (toks[r.cur] == Newline || toks[r.cur] == Eof)
              && forall j :: st.cur <= j < r.cur ==> toks[j] != Newline && toks[j] != Eof
    ensures toks[st.cur] == Kw(STOP) ==> Step(toks, st) == st.(cur := st.cur + 1, running := false)
  {
    if toks[st.cur] == Kw(REM) {
      hide SkipToNewline;
      LineEnd(toks, st.cur);
    }
  }

  lemma {:induction false} LineEnd(toks: seq<Token>, cur: nat)
    requires Terminated(toks) && cur < |toks|
    ensures var r := SkipToNewline(toks, cur);
            && (toks[r] == Newline || toks[r] == Eof) && forall j :: cur <= j < r ==> toks[j] != Newline && toks[j] != Eof
    decreases |toks| - cur
  {
    if toks[cur] != Newline && toks[cur] != Eof { LineEnd(toks, cur + 1); }
  }

  /** The frame on top is that of a loop of the given kind. */
  predicate Inside(st: St, t: Token) {
    && st.frames != []
    && var f := st.frames[|st.frames| - 1];
       (t == Kw(NEXT) && f.ForFrame?) || (t == Kw(WEND) && f.WhileFrame?) || (t == Kw(UNTIL) && f.RepeatFrame?)
  }

  /** The end of a loop the machine is not inside of is an error, and so is a 65th loop. */
  lemma {:induction false} LoopErrors(toks: seq<Token>, st: St)
    requires Ready(toks, st)
    ensures toks[st.cur] in {Kw(NEXT), Kw(WEND), Kw(UNTIL)} && !Inside(st, toks[st.cur]) ==> !Step(toks, st).ok
    ensures toks[st.cur] in {Kw(WHILE), Kw(REPEAT)} && |st.frames| >= 64 ==> !Step(toks, st).ok
    ensures toks[st.cur] == Kw(REPEAT) && |st.frames| < 64 ==>
              Step(toks, st) == st.(cur := st.cur + 1, frames := st.frames + [RepeatFrame(st.cur + 1)])
  {
    hide Eval;
  }

  /** FOR with numbers for bounds, on a line of its own: the variable is set, and the loop entered
      with its limit and a step of one while there are fewer than 64; otherwise it is an error. */
  lemma {:induction false} ForEntered(toks: seq<Token>, st: St, x: string, a: int, b: int)
    requires Ready(toks, st) && PlainName(x) && |x| <= 23 && |st.vars| < 128 && st.cur + 6 < |toks|
    requires toks[st.cur..st.cur + 7] == [Kw(FOR), Id(x), Op('='), Num(a), Kw(TO), Num(b), Newline]
    ensures var r := Step(toks, st);
            && (r.ok <==> |st.frames| < 64)
            && (forall y: string :: BasicExpr.Lookup(r.vars, y) == if y == x then a else BasicExpr.Lookup(st.vars, y))
            && (r.ok ==>
                  && r == st.(cur := st.cur + 6, vars := r.vars, frames := r.frames) && |r.frames| == |st.frames| + 1
                  && r.frames[..|st.frames|] == st.frames
                  && (exists i :: 0 <= i < |r.vars| && r.vars[i].name == x && r.frames[|st.frames|] == ForFrame(st.cur + 6, i, b, 1_000_000)))
  {
    hide Eval, StopsFrom, PlainName, GetVar, Valid;
    LineStops();
    ForTokens(toks, st, x, a, b);
    NumberValue(toks, st.cur + 3, a, 0, st.vars);
    NumberValue(toks, st.cur + 5, b, 0, st.vars);
    NameFound(st.vars, x);
    SetSays(st.vars, x, a);
    assert x[..|x|] == x;
    ForIs(toks, st, x, a, b);
    var s := st.(cur := st.cur + 6);
    var (vs, i) := GetVar(st.vars, x).value;
    var r := EnterFor(s, x, a, b, 1_000_000);
    assert SetVar(vs, i, a)[i].name == x;
    if |st.frames| < 64 { assert r.frames[|st.frames|] == ForFrame(st.cur + 6, i, b, 1_000_000); }
  }

  lemma {:induction false} ForTokens(toks: seq<Token>, st: St, x: string, a: int, b: int)
    requires Ready(toks, st) && st.cur + 6 < |toks|
    requires toks[st.cur..st.cur + 7] == [Kw(FOR), Id(x), Op('='), Num(a), Kw(TO), Num(b), Newline]
    ensures Valid(toks, st) && Terminated(toks)
    ensures toks[st.cur] == Kw(FOR) && toks[st.cur + 1] == Id(x) && toks[st.cur + 2] == Op('=') && toks[st.cur + 3] == Num(a)
    ensures toks[st.cur + 4] == Kw(TO) && toks[st.cur + 5] == Num(b) && toks[st.cur + 6] == Newline
  {
    var t := toks[st.cur..st.cur + 7];
    assert t[0] == toks[st.cur] && t[1] == toks[st.cur + 1] && t[2] == toks[st.cur + 2] && t[3] == toks[st.cur + 3];
    assert t[4] == toks[st.cur + 4] && t[5] == toks[st.cur + 5] && t[6] == toks[st.cur + 6];
  }

  lemma {:induction false} ForIs(toks: seq<Token>, st: St, x: string, a: int, b: int)
    requires Ready(toks, st) && st.cur + 6 < |toks|
    requires toks[st.cur] == Kw(FOR) && toks[st.cur + 1] == Id(x) && toks[st.cur + 2] == Op('=') && toks[st.cur + 3] == Num(a)
    requires toks[st.cur + 4] == Kw(TO) && toks[st.cur + 5] == Num(b) && toks[st.cur + 6] == Newline
    requires Eval(0, toks, st.cur + 3, 0, st.vars) == Ev(a, st.cur + 4, st.vars, true)
    requires Eval(0, toks, st.cur + 5, 0, st.vars) == Ev(b, st.cur + 6, st.vars, true)
    ensures Step(toks, st) == EnterFor(st.(cur := st.cur + 6), x, a, b, 1_000_000)
  {
    hide Eval, EnterFor;
  }

  /** What begins no statement, or breaks off where its form asks for something else, is an error:
      an assignment or FOR without its =, FOR without a name, IF without THEN. A jump by line number
      is one here, too. */
  lemma {:induction false} FormErrors(toks: seq<Token>, st: St, a: int)
    requires Ready(toks, st)
    ensures toks[st.cur].Num? || toks[st.cur] in {Kw(TO), Kw(STEP), Kw(THEN), Kw(MOD), Op('='), Op(')'), Op('+')} ==> !Step(toks, st).ok
    ensures toks[st.cur] == Kw(FOR) && st.cur + 1 < |toks| && !toks[st.cur + 1].Id? ==> !Step(toks, st).ok
    ensures toks[st.cur] == Kw(FOR) && st.cur + 2 < |toks| && toks[st.cur + 1].Id? && toks[st.cur + 2] != Op('=') ==> !Step(toks, st).ok
    ensures toks[st.cur].Id? && st.cur + 1 < |toks| && toks[st.cur + 1] != Op('=') && toks[st.cur + 1] != Op('E') ==> !Step(toks, st).ok
    ensures toks[st.cur] == Kw(IF) && st.cur + 2 < |toks| && toks[st.cur + 1] == Num(a) && toks[st.cur + 2] == Newline ==> !Step(toks, st).ok
    ensures toks[st.cur] == Kw(IF) && st.cur + 3 < |toks| && toks[st.cur + 1] == Num(a) && toks[st.cur + 2] == Kw(THEN) && toks[st.cur + 3].Num? && a != 0
            ==> !Step(toks, st).ok
  {
    hide Eval, StopsFrom, GetVar, PrintLoop, Branch;
    LineStops();
    if toks[st.cur] == Kw(IF) && st.cur + 2 < |toks| && toks[st.cur + 1] == Num(a) && (toks[st.cur + 2] == Newline || toks[st.cur + 2] == Kw(THEN)) {
      NumberValue(toks, st.cur + 1, a, 0, st.vars);
    }
  }
}
