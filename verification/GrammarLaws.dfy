/**
 The grammar of GridBASIC on literal tokens: which token is which operator, what binds tighter,
 how deep expressions and how many names there may be, and a program from its text to its output.
 */
module GrammarLaws {
  import opened Common
  import opened Numbers
  import opened BasicEval
  import opened BasicExpr
  import opened BasicMachine
  import opened BasicProgram
  import opened BasicLines
  import opened BasicLoops
  import opened OperatorLaws
  import opened LoopLaws

  // ---- operators ----

  /** Each operator between two numbers, as the tokenizer delivers it: # for not equal, L and G for
      the comparisons of two characters. */
  lemma {:induction false} OperatorTexts(a: int, b: int)
    ensures BasicExpr.Print(Bin(Or, Lit(a), Lit(b)), 0) == [Num(a), Kw(OR), Num(b)]
    ensures BasicExpr.Print(Bin(And, Lit(a), Lit(b)), 0) == [Num(a), Kw(AND), Num(b)]
    ensures BasicExpr.Print(Bin(Eq, Lit(a), Lit(b)), 0) == [Num(a), Op('='), Num(b)]
    ensures BasicExpr.Print(Bin(Ne, Lit(a), Lit(b)), 0) == [Num(a), Op('#'), Num(b)]
    ensures BasicExpr.Print(Bin(Lt, Lit(a), Lit(b)), 0) == [Num(a), Op('<'), Num(b)]
    ensures BasicExpr.Print(Bin(Gt, Lit(a), Lit(b)), 0) == [Num(a), Op('>'), Num(b)]
    ensures BasicExpr.Print(Bin(Le, Lit(a), Lit(b)), 0) == [Num(a), Op('L'), Num(b)]
    ensures BasicExpr.Print(Bin(Ge, Lit(a), Lit(b)), 0) == [Num(a), Op('G'), Num(b)]
    ensures BasicExpr.Print(Bin(Add, Lit(a), Lit(b)), 0) == [Num(a), Op('+'), Num(b)]
    ensures BasicExpr.Print(Bin(Sub, Lit(a), Lit(b)), 0) == [Num(a), Op('-'), Num(b)]
    ensures BasicExpr.Print(Bin(Mul, Lit(a), Lit(b)), 0) == [Num(a), Op('*'), Num(b)]
    ensures BasicExpr.Print(Bin(Div, Lit(a), Lit(b)), 0) == [Num(a), Op('/'), Num(b)]
    ensures BasicExpr.Print(Bin(Mod, Lit(a), Lit(b)), 0) == [Num(a), Kw(MOD), Num(b)]
    ensures BasicExpr.Print(Bin(IDiv, Lit(a), Lit(b)), 0) == [Num(a), Kw(DIV), Num(b)]
    ensures BasicExpr.Print(Pow(Lit(a), Lit(b)), 0) == [Num(a), Op('^'), Num(b)]
  {
    hide BasicExpr.Print;
    forall op: BinOp ensures BasicExpr.Print(Bin(op, Lit(a), Lit(b)), 0) == [Num(a), OpToken(op), Num(b)] { BinPrinted(op, a, b); }
    PowPrinted(a, b);
  }

  lemma {:induction false} BinPrinted(op: BinOp, a: int, b: int)
    ensures BasicExpr.Print(Bin(op, Lit(a), Lit(b)), 0) == [Num(a), OpToken(op), Num(b)]
  {
    hide OpToken;
    LitPrinted(a);
    LitPrinted(b);
  }

  lemma {:induction false} PowPrinted(a: int, b: int)
    ensures BasicExpr.Print(Pow(Lit(a), Lit(b)), 0) == [Num(a), Op('^'), Num(b)]
  {
    LitPrinted(a);
    LitPrinted(b);
  }

  lemma {:induction false} LitPrinted(a: int)
    ensures forall p: nat :: p <= 7 ==> BasicExpr.Print(Lit(a), p) == [Num(a)] && BasicExpr.Nesting(Lit(a), p) == 1
  {
  }

  /** Without parentheses AND binds tighter than OR, NOT than AND, comparisons than NOT, sums than
      comparisons, products than sums, powers than products, and signs than powers. */
  lemma {:induction false} BindsTighter(a: int, b: int, c: int)
    ensures BasicExpr.Print(Bin(Or, Lit(a), Bin(And, Lit(b), Lit(c))), 0) == [Num(a), Kw(OR), Num(b), Kw(AND), Num(c)]
    ensures BasicExpr.Print(Bin(And, Not(Lit(a)), Lit(b)), 0) == [Kw(NOT), Num(a), Kw(AND), Num(b)]
    ensures BasicExpr.Print(Not(Bin(Eq, Lit(a), Lit(b))), 0) == [Kw(NOT), Num(a), Op('='), Num(b)]
    ensures BasicExpr.Print(Bin(Lt, Lit(a), Bin(Add, Lit(b), Lit(c))), 0) == [Num(a), Op('<'), Num(b), Op('+'), Num(c)]
    ensures BasicExpr.Print(Bin(Sub, Lit(a), Bin(Mul, Lit(b), Lit(c))), 0) == [Num(a), Op('-'), Num(b), Op('*'), Num(c)]
    ensures BasicExpr.Print(Bin(Div, Lit(a), Pow(Lit(b), Lit(c))), 0) == [Num(a), Op('/'), Num(b), Op('^'), Num(c)]
    ensures BasicExpr.Print(Pow(Neg(Lit(a)), Lit(b)), 0) == [Op('-'), Num(a), Op('^'), Num(b)]
  {
    LitPrinted(a);
    LitPrinted(b);
    LitPrinted(c);
    var eq := Bin(Eq, Lit(a), Lit(b));
    assert BasicExpr.Print(eq, 2) == [Num(a), Op('='), Num(b)];
    assert BasicExpr.Print(Not(Lit(a)), 1) == [Kw(NOT), Num(a)];
    assert BasicExpr.Print(Neg(Lit(a)), 7) == [Op('-'), Num(a)];
    assert BasicExpr.Print(Bin(And, Lit(b), Lit(c)), 1) == [Num(b), Kw(AND), Num(c)];
    assert BasicExpr.Print(Bin(Add, Lit(b), Lit(c)), 4) == [Num(b), Op('+'), Num(c)];
    assert BasicExpr.Print(Bin(Mul, Lit(b), Lit(c)), 5) == [Num(b), Op('*'), Num(c)];
    assert BasicExpr.Print(Pow(Lit(b), Lit(c)), 6) == [Num(b), Op('^'), Num(c)];
  }

  /** Differences and quotients associate to the left, powers to the right. */
  lemma {:induction false} Associates(a: int, b: int, c: int)
    ensures BasicExpr.Print(Bin(Sub, Bin(Sub, Lit(a), Lit(b)), Lit(c)), 0) == [Num(a), Op('-'), Num(b), Op('-'), Num(c)]
    ensures BasicExpr.Print(Bin(Div, Bin(Div, Lit(a), Lit(b)), Lit(c)), 0) == [Num(a), Op('/'), Num(b), Op('/'), Num(c)]
    ensures BasicExpr.Print(Pow(Lit(a), Pow(Lit(b), Lit(c))), 0) == [Num(a), Op('^'), Num(b), Op('^'), Num(c)]
  {
    LitPrinted(a);
    LitPrinted(b);
    LitPrinted(c);
    assert BasicExpr.Print(Bin(Sub, Lit(a), Lit(b)), 4) == [Num(a), Op('-'), Num(b)];
    assert BasicExpr.Print(Bin(Div, Lit(a), Lit(b)), 5) == [Num(a), Op('/'), Num(b)];
    assert BasicExpr.Print(Pow(Lit(b), Lit(c)), 6) == [Num(b), Op('^'), Num(c)];
  }

  /** Parentheses override both. */
  lemma {:induction false} Parenthesized(a: int, b: int, c: int)
    ensures BasicExpr.Print(Bin(Sub, Lit(a), Bin(Sub, Lit(b), Lit(c))), 0) == [Num(a), Op('-'), Op('('), Num(b), Op('-'), Num(c), Op(')')]
    ensures BasicExpr.Print(Bin(Mul, Bin(Add, Lit(a), Lit(b)), Lit(c)), 0) == [Op('('), Num(a), Op('+'), Num(b), Op(')'), Op('*'), Num(c)]
  {
    LitPrinted(a);
    LitPrinted(b);
    LitPrinted(c);
    assert BasicExpr.Print(Bin(Sub, Lit(b), Lit(c)), 0) == [Num(b), Op('-'), Num(c)];
    assert BasicExpr.Print(Bin(Sub, Lit(b), Lit(c)), 5) == [Op('(')] + [Num(b), Op('-'), Num(c)] + [Op(')')];
    assert BasicExpr.Print(Bin(Add, Lit(a), Lit(b)), 0) == [Num(a), Op('+'), Num(b)];
    assert BasicExpr.Print(Bin(Add, Lit(a), Lit(b)), 5) == [Op('(')] + [Num(a), Op('+'), Num(b)] + [Op(')')];
  }

  // ---- the evaluator ----

  /** An expression over numbers, standing before the end of a program, is evaluated to its value,
      if its nesting fits and it has one; otherwise the evaluator reports an error. */
  lemma {:induction false} Evaluated(e: Expr)
    requires NamesIn(e, {})
    ensures var toks := BasicExpr.Print(e, 0) + [Eof];
            && Terminated(toks)
            && var r := Eval(0, toks, 0, 0, []);
               && (r.ok <==> BasicExpr.Nesting(e, 0) <= 32 && Value(e, map[]).Some?)
               && (r.ok ==> Value(e, map[]) == Some(r.v) && r.cur == |toks| - 1)
  {
    hide Eval, BasicExpr.Print, BasicExpr.Nesting, Value, Holds, NamesFit, NamesIn, StopsFrom;
    var p := BasicExpr.Print(e, 0);
    var toks := p + [Eof];
    assert toks[0..0 + |p|] == p && toks[|p|] == Eof;
    NothingHeld();
    Adequate(e, 0, toks, 0, 0, [], map[], {});
  }

  lemma {:induction false} NothingHeld()
    ensures Holds([], map[], {}) && NamesFit({}) && StopsFrom(0, Eof)
  {
    EmptyStore();
    EndStops();
    hide Holds, StopsFrom, PlainName;
  }

  lemma {:induction false} EmptyStore()
    ensures Holds([], map[], {})
  {
    hide BasicExpr.Lookup, Get;
    forall x: string ensures BasicExpr.Lookup([], x) == Get(map[], x) { NoVariable(x); }
  }

  lemma {:induction false} NoVariable(x: string)
    ensures BasicExpr.Lookup([], x) == Get(map[], x)
  {
  }

  lemma {:induction false} EndStops()
    ensures StopsFrom(0, Eof)
  {
    forall q: nat ensures OpAt(q, Eof) == None { NoOperator(q); }
    hide OpAt;
  }

  lemma {:induction false} NoOperator(q: nat)
    ensures OpAt(q, Eof) == None
  {
  }

  /** 7 - 3 is 4: what the evaluator makes of a difference and of a mixed term, for all numbers
      within 64 bits. */
  lemma {:induction false} Differences(a: int, b: int, c: int)
    requires Fits64(a - b) && Fits64(a - b - c) && Fits64(b - c) && Fits64(a - (b - c))
    ensures Eval(0, [Num(a), Op('-'), Num(b), Eof], 0, 0, []).v == a - b
    ensures Eval(0, [Num(a), Op('-'), Num(b), Op('-'), Num(c), Eof], 0, 0, []).v == a - b - c
    ensures Eval(0, [Num(a), Op('-'), Op('('), Num(b), Op('-'), Num(c), Op(')'), Eof], 0, 0, []).v == a - (b - c)
  {
    hide Eval, BasicExpr.Print, Held, Value, BasicExpr.Nesting;
    DifferenceValue(a, b);
    DifferenceValue(a - b, c);
    DifferenceValue(b, c);
    DifferenceValue(a, b - c);
    OperatorTexts(a, b);
    Associates(a, b, c);
    Parenthesized(a, b, c);
    var d, e, f := Bin(Sub, Lit(a), Lit(b)), Bin(Sub, Bin(Sub, Lit(a), Lit(b)), Lit(c)), Bin(Sub, Lit(a), Bin(Sub, Lit(b), Lit(c)));
    ChainValue(a, b, c);
    ShallowChains(a, b, c);
    Evaluated(d);
    Evaluated(e);
    Evaluated(f);
    assert [Num(a), Op('-'), Num(b)] + [Eof] == [Num(a), Op('-'), Num(b), Eof];
    assert [Num(a), Op('-'), Num(b), Op('-'), Num(c)] + [Eof] == [Num(a), Op('-'), Num(b), Op('-'), Num(c), Eof];
    assert [Num(a), Op('-'), Op('('), Num(b), Op('-'), Num(c), Op(')')] + [Eof] == [Num(a), Op('-'), Op('('), Num(b), Op('-'), Num(c), Op(')'), Eof];
  }

  lemma {:induction false} DifferenceValue(a: int, b: int)
    requires Fits64(a - b)
    ensures Value(Bin(Sub, Lit(a), Lit(b)), map[]) == Some(a - b)
  {
    SumLaw(a, b);
    HeldFits(On(Sub, a, b).value, a - b);
  }

  lemma {:induction false} ChainValue(a: int, b: int, c: int)
    requires Value(Bin(Sub, Lit(a), Lit(b)), map[]) == Some(a - b) && Value(Bin(Sub, Lit(b), Lit(c)), map[]) == Some(b - c)
    ensures Value(Bin(Sub, Bin(Sub, Lit(a), Lit(b)), Lit(c)), map[]) == Value(Bin(Sub, Lit(a - b), Lit(c)), map[])
    ensures Value(Bin(Sub, Lit(a), Bin(Sub, Lit(b), Lit(c))), map[]) == Value(Bin(Sub, Lit(a), Lit(b - c)), map[])
  {
    hide Apply;
    LitValue(a);
    LitValue(c);
    LitValue(a - b);
    LitValue(b - c);
  }

  lemma {:induction false} ShallowChains(a: int, b: int, c: int)
    ensures BasicExpr.Nesting(Bin(Sub, Lit(a), Lit(b)), 0) == 1
    ensures BasicExpr.Nesting(Bin(Sub, Bin(Sub, Lit(a), Lit(b)), Lit(c)), 0) == 1
    ensures BasicExpr.Nesting(Bin(Sub, Lit(a), Bin(Sub, Lit(b), Lit(c))), 0) == 2
  {
    LitPrinted(a);
    LitPrinted(b);
    LitPrinted(c);
    assert BasicExpr.Nesting(Bin(Sub, Lit(a), Lit(b)), 4) == 1;
    assert BasicExpr.Nesting(Bin(Sub, Lit(b), Lit(c)), 0) == 1;
    assert BasicExpr.Nesting(Bin(Sub, Lit(b), Lit(c)), 5) == 2;
  }

  // ---- depth ----

  /** A number behind n minus signs, and in n pairs of parentheses. */
  function Signs(n: nat): Expr { if n == 0 then Lit(0) else Neg(Signs(n - 1)) }

  lemma {:induction false} SignsAre(n: nat, p: nat)
    requires p <= 7
    ensures BasicExpr.Nesting(Signs(n), p) == n + 1
    ensures BasicExpr.Print(Signs(n), p) == seq(n, _ => Op('-')) + [Num(0)]
  {
    if n > 0 {
      SignsAre(n - 1, 7);
      assert [Op('-')] + (seq(n - 1, _ => Op('-')) + [Num(0)]) == seq(n, _ => Op('-')) + [Num(0)];
      SignsFirst(n, p);
    } else {
      LitPrinted(0);
      assert seq(0, _ => Op('-')) + [Num(0)] == [Num(0)];
    }
  }

  lemma {:induction false} SignsFirst(n: nat, p: nat)
    requires n > 0 && p <= 7
    ensures BasicExpr.Nesting(Signs(n), p) == 1 + BasicExpr.Nesting(Signs(n - 1), 7)
    ensures BasicExpr.Print(Signs(n), p) == [Op('-')] + BasicExpr.Print(Signs(n - 1), 7)
  {
    var e := Signs(n - 1);
    assert Signs(n) == Neg(e);
    hide Signs;
  }

  lemma {:induction false} SignsValue(n: nat)
    ensures Value(Signs(n), map[]) == Some(0) && NamesIn(Signs(n), {})
  {
    if n > 0 { SignsValue(n - 1); }
  }

  /** The depth guard lets 31 signs before a number pass, and no more. */
  lemma {:induction false} DepthLimit(n: nat)
    ensures var toks := seq(n, _ => Op('-')) + [Num(0), Eof];
            Terminated(toks) && (Eval(0, toks, 0, 0, []).ok <==> n <= 31)
  {
    hide Eval, BasicExpr.Print, Value, BasicExpr.Nesting, Signs, NamesIn;
    SignsAre(n, 0);
    SignsValue(n);
    Evaluated(Signs(n));
    assert seq(n, _ => Op('-')) + [Num(0)] + [Eof] == seq(n, _ => Op('-')) + [Num(0), Eof];
  }

  // ---- names ----

  /** A name that is looked up is found, or added with value 0 and at most 23 characters as long as
      there are fewer than 128; names of strings, devices and functions are none. */
  lemma {:induction false} NameFound(vars: seq<Var>, name: string)
    ensures var r := GetVar(vars, name);
            var known := exists i :: 0 <= i < |vars| && vars[i].name == name;
            && (r.Some? <==> PlainName(name) && (known || |vars| < 128))
            && (r.Some? && known ==> r.value.0 == vars && r.value.1 < |vars| && vars[r.value.1].name == name)
            && (r.Some? && !known ==>
                  r.value.0 == vars + [Var(if |name| <= 23 then name else name[..23], 0)] && r.value.1 == |vars|)
  {
    hide PlainName;
    if |name| <= 23 { assert name[..|name|] == name; }
  }

  /** A name without $ and . is a variable's unless it is one of thirteen functions. */
  lemma {:induction false} NotNames(name: string)
    ensures '$' in name || '.' in name ==> !PlainName(name)
    ensures '$' !in name && '.' !in name ==>
              (PlainName(name) <==> name !in {"ABS", "INT", "SGN", "SQR", "RND", "LEN", "VAL", "ASC", "MIN", "MAX", "FIX", "ROUND", "PI"})
  {
    assert forall d :: d in ["GRID.TIME", "GRID.RND", "GRID.PING", "GRID.CAP", "GRID.DISC.LEVEL", "GRID.DISC.XP"] ==> '.' in d by {
      assert "GRID.TIME"[4] == '.' && "GRID.RND"[4] == '.' && "GRID.PING"[4] == '.';
      assert "GRID.CAP"[4] == '.' && "GRID.DISC.LEVEL"[4] == '.' && "GRID.DISC.XP"[4] == '.';
    }
  }

  /** A name in front of a parenthesis, one that is no variable's, and a new one in a full table end
      the evaluation in an error; any other is read. */
  lemma {:induction false} NameRead(toks: seq<Token>, cur: nat, name: string, depth: nat, vars: seq<Var>)
    requires Terminated(toks) && cur < |toks| && toks[cur] == Id(name) && depth < 32
    ensures var r := Eval(7, toks, cur, depth, vars);
            && (r.ok <==> toks[cur + 1] != Op('(') && PlainName(name) && ((exists i :: 0 <= i < |vars| && vars[i].name == name) || |vars| < 128))
            && (r.ok ==> r.cur == cur + 1 && r.v == BasicExpr.Lookup(vars, name))
  {
    hide PlainName, GetVar;
    NameFound(vars, name);
    FoundFirst(vars, name);
  }

  lemma {:induction false} FoundFirst(vars: seq<Var>, name: string)
    ensures var r := GetVar(vars, name); r.Some? ==> r.value.0[r.value.1].n == BasicExpr.Lookup(vars, name)
  {
    hide PlainName;
  }

  /** The cursor moves to the next token and never past the last. */
  lemma {:induction false} CursorMoves(toks: seq<Token>, cur: nat)
    requires cur < |toks|
    ensures Advance(toks, cur) == Min(cur + 1, |toks| - 1)
  {
  }

  /** What 32 and 128 bits hold of a number: the one in their range that differs from it by a
      multiple of 2^32 and 2^128. */
  lemma {:induction false} NarrowHolds(x: int)
    ensures -0x8000_0000 <= Wrap32(x) < 0x8000_0000 && (Wrap32(x) - x) % 0x1_0000_0000 == 0
    ensures Fits128(Wrap128(x)) && (Wrap128(x) - x) % 0x1_0000_0000_0000_0000_0000_0000_0000_0000 == 0
  {
    var (h, m) := (0x8000_0000, 0x1_0000_0000);
    var (g, n) := (0x8000_0000_0000_0000_0000_0000_0000_0000, 0x1_0000_0000_0000_0000_0000_0000_0000_0000);
    assert x + h == (x + h) / m * m + (x + h) % m;
    assert Wrap32(x) - x == m * (-((x + h) / m));
    assert x + g == (x + g) / n * n + (x + g) % n;
    assert Wrap128(x) - x == n * (-((x + g) / n));
  }

  // ---- a program ----

  /** `FOR I = 1 TO 3`, `PRINT I`, `NEXT I`, each on a line of its own, token by token. */
  function CountToThree(): seq<Token> {
    [Kw(FOR), Id("I"), Op('='), Num(1_000_000), Kw(TO), Num(3_000_000), Newline,
     Kw(PRINT), Id("I"), Newline, Kw(NEXT), Id("I"), Newline, Eof]
  }

  function CountBlock(): Block {
    Then(For("I", Lit(1_000_000), Lit(3_000_000), None, true, Then(Do(BasicProgram.Print([Show(Ref("I"))])), true, Done)), true, Done)
  }

  lemma {:induction false} CountTokens()
    ensures ProgramTokens(CountBlock()) == CountToThree() && |BlockTokens(CountBlock())| == 13
  {
    LitPrinted(1_000_000);
    LitPrinted(3_000_000);
    var show := [Show(Ref("I"))];
    assert ItemsTokens(show) == [Id("I")] by { assert show[1..] == []; assert ItemTokens(show[0]) == [Id("I")]; }
    var body := Then(Do(BasicProgram.Print(show)), true, Done);
    assert BlockTokens(body) == [Kw(PRINT), Id("I"), Newline] by { assert SimpleTokens(BasicProgram.Print(show)) == [Kw(PRINT), Id("I")]; }
    assert ForHead("I", Lit(1_000_000), Lit(3_000_000), None) == [Kw(FOR), Id("I"), Op('='), Num(1_000_000), Kw(TO), Num(3_000_000)];
  }

  lemma {:induction false} CountFits()
    ensures NamesFit({"I"}) && BlockOk(CountBlock(), {"I"}, MAX_FRAMES)
  {
    LitPrinted(1_000_000);
    LitPrinted(3_000_000);
    var show := [Show(Ref("I"))];
    var body := Then(Do(BasicProgram.Print(show)), true, Done);
    assert ExprOk(Ref("I"), {"I"});
    assert ItemsOk(show, {"I"});
    assert StmtOk(body.s, true, {"I"}, MAX_FRAMES - 1);
    assert BlockOk(body, {"I"}, MAX_FRAMES - 1) by { assert BlockOk(Done, {"I"}, MAX_FRAMES - 1); }
    assert StmtOk(CountBlock().s, true, {"I"}, MAX_FRAMES);
    assert BlockOk(Done, {"I"}, MAX_FRAMES);
  }

  /** From its tokens to its output: the machine runs this program to its end, prints 1, 2 and 3,
      and leaves 4 in I. */
  lemma {:induction false} PrintsOneTwoThree()
    ensures Valid(CountToThree(), Start())
    ensures exists n: nat :: var t := Run(CountToThree(), Start(), n);
              t.ok && t.cur == 13 && t.out == "1\n" + "2\n" + "3\n" && t.frames == [] && BasicExpr.Lookup(t.vars, "I") == 4_000_000
  {
    hide Run, Valid, BlockOk, NamesFit, StmtMeaning, Match, BlockTokens, ProgramTokens, CountToThree;
    CountTokens();
    CountFits();
    var b := CountBlock();
    var s := Sto(map[], "");
    OneTwoThree(s);
    assert "" + "1\n" + "2\n" + "3\n" == "1\n" + "2\n" + "3\n";
    ProgramRuns(b, 3, {"I"});
    BlockOf(b.s, s, 3);
    var r := BlockMeaning(b, s, 3).sto;
    var n :| Arrives(CountToThree(), Start(), n, 13, [], r, {"I"});
    MatchSays(Run(CountToThree(), Start(), n), r, {"I"});
  }

  lemma {:induction false} BlockOf(c: Stmt, s: Sto, k: nat)
    ensures BlockMeaning(Then(c, true, Done), s, k) == StmtMeaning(c, s, k)
  {
    hide StmtMeaning;
  }

  lemma {:induction false} MatchSays(t: St, s: Sto, names: set<string>)
    requires Match(t, s, names)
    ensures t.ok && t.out == s.out && BasicExpr.Lookup(t.vars, "I") == Get(s.store, "I")
  {
  }
}
