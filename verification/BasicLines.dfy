/**
 The straight-line statements of the token-cursor machine (expressions, PRINT,
 assignment and one-line IF) against their meaning.
 */
module BasicLines {
  import opened Common
  import opened Numbers
  import opened BasicEval
  import opened BasicExpr
  import opened BasicMachine
  import opened BasicProgram

  // ---- machine state against meaning ----

  ghost predicate Match(st: St, s: Sto, names: set<string>) {
    && st.ok && st.running && st.out == s.out
    && NamesFit(names) && Holds(st.vars, s.store, names)
  }

  /** The table only grew; the names it had keep their places. */
  ghost predicate SameNames(a: seq<Var>, b: seq<Var>) {
    |a| <= |b| && forall i :: 0 <= i < |a| ==> a[i].name == b[i].name
  }

  /** From st the machine has moved to t, at `end`, in the state s, its loops untouched. */
  ghost predicate Moved(st: St, t: St, end: nat, s: Sto, names: set<string>) {
    t.cur == end && Match(t, s, names) && t.frames == st.frames && SameNames(st.vars, t.vars)
  }

  /** What one straight-line piece of program does to the machine. */
  ghost predicate Does(st: St, t: St, end: nat, r: Result, names: set<string>) {
    match r
    case Ends(s) => Moved(st, t, end, s, names)
    case Faults => !t.ok
    case Runs => false
  }

  lemma {:induction false} DoesAfter(st: St, m: St, t: St, mid: nat, end: nat, s: Sto, r: Result, names: set<string>)
    requires Moved(st, m, mid, s, names) && Does(m, t, end, r, names)
    ensures Does(st, t, end, r, names)
  {
    hide Holds, NamesFit;
  }

  lemma {:induction false} EvalAtMeaning(toks: seq<Token>, st: St, e: Expr, s: Sto, names: set<string>)
    requires Terminated(toks) && Match(st, s, names) && ExprOk(e, names)
    requires Occurs(toks, st.cur, BasicExpr.Print(e, OR_LEVEL))
    requires st.cur + |BasicExpr.Print(e, OR_LEVEL)| < |toks|
    requires StopsFrom(OR_LEVEL, toks[st.cur + |BasicExpr.Print(e, OR_LEVEL)|])
    ensures st.cur < |toks|
    ensures var (v, t) := EvalAt(toks, st);
            match Value(e, s.store)
            case None => !t.ok
            case Some(x) => v == x && Moved(st, t, st.cur + |BasicExpr.Print(e, OR_LEVEL)|, s, names)
  {
    hide Eval, Holds, NamesFit, StopsFrom, NamesIn, BasicExpr.Print, Value, Nesting;
    Adequate(e, OR_LEVEL, toks, st.cur, 0, st.vars, s.store, names);
  }

  // ---- which tokens a form is made of ----

  predicate ExprToken(t: Token) {
    match t
    case Num(_) => true
    case Id(_) => true
    case Op(c) => c != ':' && c != ';' && c != ',' && c != '?'
    case Kw(k) => k.OR? || k.AND? || k.NOT? || k.MOD? || k.DIV?
    case _ => false
  }

  lemma {:induction false} PrintTokens(e: Expr, p: nat)
    ensures forall t :: t in BasicExpr.Print(e, p) ==> ExprToken(t)
    decreases e, if Level(e) < p then 1 else 0
  {
    if Level(e) < p {
      PrintTokens(e, OR_LEVEL);
    } else {
      match e
      case Lit(_) =>
      case Ref(_) =>
      case Neg(a) => PrintTokens(a, PRIMARY_LEVEL);
      case Pos(a) => PrintTokens(a, PRIMARY_LEVEL);
      case Not(a) => PrintTokens(a, NOT_LEVEL);
      case Bin(op, a, b) => PrintTokens(a, OpLevel(op)); PrintTokens(b, OpLevel(op) + 1);
      case Pow(a, b) => PrintTokens(a, PRIMARY_LEVEL); PrintTokens(b, POW_LEVEL);
    }
  }

  predicate LineToken(t: Token) {
    ExprToken(t) || t == Kw(PRINT) || t == Op(':') || t == Op(';') || t == Op(',')
  }

  lemma {:induction false} ItemsAreLine(items: seq<Item>)
    ensures forall t :: t in ItemsTokens(items) ==> LineToken(t)
  {
    if items != [] {
      ItemsAreLine(items[1..]);
      if items[0].Show? { PrintTokens(items[0].e, OR_LEVEL); }
    }
  }

  lemma {:induction false} SimpleIsLine(d: Simple)
    ensures forall t :: t in SimpleTokens(d) ==> LineToken(t)
  {
    match d
    case Let(x, e) => PrintTokens(e, OR_LEVEL);
    case Print(items) => ItemsAreLine(items);
  }

  lemma {:induction false} BranchIsLine(body: seq<Simple>)
    ensures forall t :: t in BranchTokens(body) ==> LineToken(t)
  {
    if body != [] {
      SimpleIsLine(body[0]);
      BranchIsLine(body[1..]);
    }
  }

  predicate ChainToken(t: Token) { LineToken(t) || t == Kw(THEN) || t == Kw(ELSE) || t == Kw(ELSEIF) }

  lemma {:induction false} ChainIsLine(arms: seq<Arm>, els: seq<Simple>)
    requires arms != []
    ensures forall t :: t in ChainTokens(arms, els) ==> ChainToken(t)
  {
    PrintTokens(arms[0].cond, OR_LEVEL);
    BranchIsLine(arms[0].body);
    BranchIsLine(els);
    if |arms| > 1 { ChainIsLine(arms[1..], els); }
  }

  // ---- PRINT ----

  /** The tokens that may follow a statement inside a line. */
  predicate Follows(t: Token) { t == Newline || t == Op(':') || t == Kw(ELSE) || t == Kw(ELSEIF) }

  lemma {:induction false} FollowersStop(t: Token)
    requires Follows(t) || t == Op(';') || t == Op(',') || t == Kw(THEN) || t == Kw(TO) || t == Kw(STEP)
    ensures StopsFrom(OR_LEVEL, t)
  {
  }

  lemma {:induction false} FollowersEndPrint(t: Token)
    requires Follows(t)
    ensures PrintEnds(t)
  {
  }

  lemma {:induction false} Split3<T>(s: seq<T>, i: nat, a: seq<T>, b: seq<T>, c: seq<T>)
    requires Occurs(s, i, a + b + c)
    ensures Occurs(s, i, a) && Occurs(s, i + |a|, b) && Occurs(s, i + |a| + |b|, c)
  {
    OccursSplit(s, i, a + b, c);
    OccursSplit(s, i, a, b);
  }

  /** The first token of an item. */
  lemma {:induction false} ItemStart(item: Item)
    ensures ItemTokens(item) != [] && !PrintEnds(ItemTokens(item)[0])
    ensures item.Show? ==> ItemTokens(item)[0] != Op(';') && ItemTokens(item)[0] != Op(',')
  {
    if item.Show? {
      PrintHead(item.e, OR_LEVEL);
      PrintTokens(item.e, OR_LEVEL);
      assert ItemTokens(item)[0] in ItemTokens(item);
    }
  }

  /** The first token of a list of items, and where the other items stand. */
  lemma {:induction false} ItemHead(items: seq<Item>, toks: seq<Token>, cur: nat)
    requires items != [] && Occurs(toks, cur, ItemsTokens(items))
    ensures Occurs(toks, cur, ItemTokens(items[0]))
    ensures Occurs(toks, cur + |ItemTokens(items[0])|, ItemsTokens(items[1..]))
    ensures |ItemsTokens(items)| == |ItemTokens(items[0])| + |ItemsTokens(items[1..])|
    ensures cur < |toks| && ItemTokens(items[0]) != [] && toks[cur] == ItemTokens(items[0])[0]
    ensures !PrintEnds(toks[cur]) && (items[0].Show? ==> toks[cur] != Op(';') && toks[cur] != Op(','))
  {
    hide ItemTokens, PrintEnds;
    OccursSplit(toks, cur, ItemTokens(items[0]), ItemsTokens(items[1..]));
    ItemStart(items[0]);
    HeadAt(toks, cur, ItemTokens(items[0]));
  }

  lemma {:induction false} PrintMeaning(items: seq<Item>, toks: seq<Token>, st: St, col: nat, sep: bool,
                                        s: Sto, names: set<string>)
    requires Terminated(toks) && Match(st, s, names) && ItemsOk(items, names)
    requires Occurs(toks, st.cur, ItemsTokens(items)) && st.cur + |ItemsTokens(items)| < |toks|
    requires Follows(toks[st.cur + |ItemsTokens(items)|])
    ensures Does(st, PrintLoop(toks, st, col, sep), st.cur + |ItemsTokens(items)|, ItemsMeaning(items, s, col, sep), names)
    decreases |items|, 1
  {
    hide Holds, NamesFit, Eval, Follows, EvalAt, Value, BasicExpr.Print, ExprOk, ItemsTokens, PrintLoop, ItemsMeaning;
    if items == [] {
      NoItems();
      FollowersEndPrint(toks[st.cur]);
      PrintLoopEnd(toks, st, col, sep, s);
    } else if items[0].Show? {
      ShowMeaning(items, toks, st, col, sep, s, names);
    } else {
      ItemHead(items, toks, st.cur);
      PrintLoopSep(toks, st, col, items, s, sep);
      var tab := items[0].Comma?;
      var pad := if tab then Blanks(NextTab(col) - col) else "";
      var t, s1 := st.(cur := st.cur + 1, out := st.out + pad), s.(out := s.out + pad);
      PrintMeaning(items[1..], toks, t, if tab then NextTab(col) else col, true, s1, names);
    }
  }

  lemma {:induction false} PrintLoopEnd(toks: seq<Token>, st: St, col: nat, sep: bool, s: Sto)
    requires Terminated(toks) && st.cur < |toks| && PrintEnds(toks[st.cur])
    ensures PrintLoop(toks, st, col, sep) == if sep then st else st.(out := st.out + "\n")
    ensures ItemsMeaning([], s, col, sep) == Ends(if sep then s else s.(out := s.out + "\n"))
  {
  }

  lemma {:induction false} PrintLoopSep(toks: seq<Token>, st: St, col: nat, items: seq<Item>, s: Sto, sep: bool)
    requires Terminated(toks) && st.cur < |toks| && items != [] && !items[0].Show?
    requires toks[st.cur] == ItemTokens(items[0])[0]
    ensures st.cur + 1 < |toks|
    ensures var tab := items[0].Comma?;
            var pad := if tab then Blanks(NextTab(col) - col) else "";
            var next := if tab then NextTab(col) else col;
            && PrintLoop(toks, st, col, sep)
               == PrintLoop(toks, st.(cur := st.cur + 1, out := st.out + pad), next, true)
            && ItemsMeaning(items, s, col, sep) == ItemsMeaning(items[1..], s.(out := s.out + pad), next, true)
  {
    assert st.out + "" == st.out && s.out + "" == s.out;
  }

  lemma {:induction false} ShowMeaning(items: seq<Item>, toks: seq<Token>, st: St, col: nat, sep: bool,
                                       s: Sto, names: set<string>)
    requires Terminated(toks) && Match(st, s, names) && ItemsOk(items, names) && items != [] && items[0].Show?
    requires Occurs(toks, st.cur, ItemsTokens(items)) && st.cur + |ItemsTokens(items)| < |toks|
    requires Follows(toks[st.cur + |ItemsTokens(items)|])
    ensures Does(st, PrintLoop(toks, st, col, sep), st.cur + |ItemsTokens(items)|, ItemsMeaning(items, s, col, sep), names)
    decreases |items|, 0
  {
    hide Holds, NamesFit, Eval, StopsFrom, Value, BasicExpr.Print, EvalAt, ExprOk, ItemsMeaning, PrintLoop, PrintEnds, ItemsTokens;
    var e, rest := items[0].e, items[1..];
    ItemHead(items, toks, st.cur);
    var mid := st.cur + |ItemTokens(items[0])|;
    ShownStops(items, toks, mid);
    EvalAtMeaning(toks, st, e, s, names);
    var (v, t) := EvalAt(toks, st);
    PrintLoopShow(toks, st, col, sep);
    ItemsMeaningShow(items, s, col, sep);
    if Value(e, s.store).Some? {
      var t1 := t.(out := t.out + NumText(v));
      var s1 := s.(out := s.out + NumText(v));
      PrintMeaning(rest, toks, t1, col + |NumText(v)|, false, s1, names);
      DoesAfter(st, t1, PrintLoop(toks, t1, col + |NumText(v)|, false), mid, st.cur + |ItemsTokens(items)|, s1,
                ItemsMeaning(rest, s1, col + |NumText(v)|, false), names);
    }
  }

  /** The token behind a shown value ends the expression. */
  lemma {:induction false} ShownStops(items: seq<Item>, toks: seq<Token>, mid: nat)
    requires items != [] && items[0].Show? && (|items| > 1 ==> !items[1].Show?)
    requires Occurs(toks, mid, ItemsTokens(items[1..])) && mid + |ItemsTokens(items[1..])| < |toks|
    requires Follows(toks[mid + |ItemsTokens(items[1..])|])
    ensures StopsFrom(OR_LEVEL, toks[mid])
  {
    hide StopsFrom, Follows, ItemsTokens;
    if |items| > 1 {
      ItemHead(items[1..], toks, mid);
      assert items[1..][0] == items[1];
    } else {
      assert items[1..] == [];
      NoItems();
    }
    FollowersStop(toks[mid]);
  }

  lemma {:induction false} NoItems()
    ensures ItemsTokens([]) == []
  {
  }

  lemma {:induction false} PrintLoopShow(toks: seq<Token>, st: St, col: nat, sep: bool)
    requires Terminated(toks) && st.cur < |toks|
    requires !PrintEnds(toks[st.cur]) && toks[st.cur] != Op(';') && toks[st.cur] != Op(',')
    ensures var (v, t) := EvalAt(toks, st);
            PrintLoop(toks, st, col, sep)
            == if !t.ok then t else PrintLoop(toks, t.(out := t.out + NumText(v)), col + |NumText(v)|, false)
  {
    hide EvalAt, NumText;
  }

  lemma {:induction false} ItemsMeaningShow(items: seq<Item>, s: Sto, col: nat, sep: bool)
    requires items != [] && items[0].Show?
    ensures ItemsMeaning(items, s, col, sep)
            == match Value(items[0].e, s.store)
               case None => Faults
               case Some(v) => ItemsMeaning(items[1..], s.(out := s.out + NumText(v)), col + |NumText(v)|, false)
  {
    hide Value, NumText;
  }

  // ---- assignment ----

  lemma {:induction false} FindAt(vars: seq<Var>, i: nat)
    requires i < |vars| && forall a, b :: 0 <= a < b < |vars| ==> vars[a].name != vars[b].name
    ensures FindVar(vars, vars[i].name) == i
  {
  }

  lemma {:induction false} SetVarHolds(vars: seq<Var>, i: nat, v: int, s: Store, names: set<string>)
    requires Holds(vars, s, names) && i < |vars|
    ensures Holds(SetVar(vars, i, v), s[vars[i].name := v], names)
    ensures SameNames(vars, SetVar(vars, i, v))
    ensures vars[i].n == Get(s, vars[i].name)
  {
    var ws := SetVar(vars, i, v);
    FindAt(vars, i);
    assert Lookup(vars, vars[i].name) == vars[i].n;
    forall x: string ensures Lookup(ws, x) == Get(s[vars[i].name := v], x) {
      SameFind(vars, ws, x);
      assert Lookup(vars, x) == Get(s, x);
    }
  }

  lemma {:induction false} SameFind(a: seq<Var>, b: seq<Var>, x: string)
    requires |a| == |b| && forall i :: 0 <= i < |a| ==> a[i].name == b[i].name
    ensures FindVar(a, x) == FindVar(b, x)
  {
    if a != [] { SameFind(a[1..], b[1..], x); }
  }

  /** An assignment whose variable is found: the value goes into its place. */
  lemma {:induction false} AssignIs(toks: seq<Token>, st: St, x: string)
    requires Terminated(toks) && st.cur + 2 < |toks| && toks[st.cur] == Id(x) && toks[st.cur + 1] == Op('=')
    requires GetVar(st.vars, x).Some?
    ensures var (vs, i) := GetVar(st.vars, x).value;
            var (v, t) := EvalAt(toks, st.(cur := st.cur + 2, vars := vs));
            Assign(toks, st) == if t.ok then t.(vars := SetVar(t.vars, i, v)) else Fail(t)
  {
    hide EvalAt, GetVar;
  }

  /** The state after the value has gone into its place. */
  lemma {:induction false} Assigned(st: St, m: St, t: St, i: nat, x: string, v: int, s: Sto, end: nat, names: set<string>)
    requires Moved(m, t, end, s, names) && SameNames(st.vars, m.vars) && m.frames == st.frames
    requires i < |m.vars| && m.vars[i].name == x
    ensures t.ok && i < |t.vars| && Moved(st, t.(vars := SetVar(t.vars, i, v)), end, s.(store := s.store[x := v]), names)
  {
    hide Holds, NamesFit;
    SetVarHolds(t.vars, i, v, s.store, names);
  }

  lemma {:induction false} AssignMeaning(x: string, e: Expr, toks: seq<Token>, st: St, s: Sto, names: set<string>)
    requires Terminated(toks) && Match(st, s, names) && SimpleOk(Let(x, e), names)
    requires var ts := SimpleTokens(Let(x, e));
             Occurs(toks, st.cur, ts) && st.cur + |ts| < |toks| && Follows(toks[st.cur + |ts|])
    ensures Does(st, Assign(toks, st), st.cur + |SimpleTokens(Let(x, e))|, SimpleMeaning(Let(x, e), s), names)
  {
    hide Holds, NamesFit, EvalAt, StopsFrom, Value, BasicExpr.Print, GetVar, Assign, Match, Moved, SetVar, SimpleTokens, Occurs, Follows, ExprOk;
    LetPlaced(x, e, toks, st);
    VariableFound(st, x, s, names);
    AssignIs(toks, st, x);
    var (vs, i) := GetVar(st.vars, x).value;
    var m := st.(cur := st.cur + 2, vars := vs);
    var end := st.cur + |SimpleTokens(Let(x, e))|;
    FollowersStop(toks[end]);
    EvalAtMeaning(toks, m, e, s, names);
    var (v, t) := EvalAt(toks, m);
    if Value(e, s.store).Some? { Assigned(st, m, t, i, x, v, s, end, names); }
  }

  /** Where the parts of an assignment stand. */
  lemma {:induction false} LetPlaced(x: string, e: Expr, toks: seq<Token>, st: St)
    requires Occurs(toks, st.cur, SimpleTokens(Let(x, e)))
    ensures |SimpleTokens(Let(x, e))| == 2 + |BasicExpr.Print(e, OR_LEVEL)| && st.cur + 2 <= |toks|
    ensures toks[st.cur] == Id(x) && toks[st.cur + 1] == Op('=')
    ensures Occurs(toks, st.cur + 2, BasicExpr.Print(e, OR_LEVEL))
  {
    hide BasicExpr.Print;
    OccursSplit(toks, st.cur, [Id(x), Op('=')], BasicExpr.Print(e, OR_LEVEL));
    HeadAt(toks, st.cur, [Id(x), Op('=')]);
    HeadAt(toks, st.cur + 1, [Op('=')]);
  }

  /** The variable of an assignment is found or made, and the store is what it was. */
  lemma {:induction false} VariableFound(st: St, x: string, s: Sto, names: set<string>)
    requires Match(st, s, names) && x in names
    ensures GetVar(st.vars, x).Some?
    ensures var (vs, i) := GetVar(st.vars, x).value;
            && i < |vs| && vs[i].name == x && SameNames(st.vars, vs)
            && forall c: nat :: Match(st.(cur := c, vars := vs), s, names)
  {
    hide Holds, NamesFit, GetVar;
    GetVarHolds(st.vars, s.store, names, x);
  }

  lemma {:induction false} SimpleRuns(d: Simple, toks: seq<Token>, st: St, s: Sto, names: set<string>)
    requires Terminated(toks) && Match(st, s, names) && SimpleOk(d, names)
    requires Occurs(toks, st.cur, SimpleTokens(d)) && st.cur + |SimpleTokens(d)| < |toks|
    requires Follows(toks[st.cur + |SimpleTokens(d)|])
    ensures Does(st, ExecSimple(toks, st), st.cur + |SimpleTokens(d)|, SimpleMeaning(d, s), names)
    ensures LineToken(toks[st.cur]) && (toks[st.cur].Id? || toks[st.cur] == Kw(PRINT))
  {
    hide Holds, NamesFit, Eval, StopsFrom, Value, BasicExpr.Print, GetVar, PrintLoop, Assign;
    HeadAt(toks, st.cur, SimpleTokens(d));
    match d
    case Let(x, e) => AssignMeaning(x, e, toks, st, s, names);
    case Print(items) =>
      assert SimpleTokens(d)[1..] == ItemsTokens(items);
      PrintMeaning(items, toks, st.(cur := st.cur + 1), 0, false, s, names);
  }

  // ---- IF ----

  /** The statements of a branch as the machine meets them. */
  lemma {:induction false} BranchParts(body: seq<Simple>, toks: seq<Token>, cur: nat)
    requires body != [] && Occurs(toks, cur, BranchTokens(body))
    ensures Occurs(toks, cur, SimpleTokens(body[0]))
    ensures var mid := cur + |SimpleTokens(body[0])|;
            if |body| == 1 then |BranchTokens(body)| == |SimpleTokens(body[0])|
            else mid < |toks| && toks[mid] == Op(':') && Occurs(toks, mid + 1, BranchTokens(body[1..]))
                 && cur + |BranchTokens(body)| == mid + 1 + |BranchTokens(body[1..])|
  {
    hide SimpleTokens;
    if |body| > 1 {
      SplitAround(toks, cur, SimpleTokens(body[0]), Op(':'), BranchTokens(body[1..]));
    }
  }

  lemma {:induction false} BranchStep(toks: seq<Token>, st: St)
    requires Terminated(toks) && st.cur < |toks|
    ensures var m := ExecSimple(toks, st);
            && Branch(toks, st) == (if toks[m.cur] == Op(':') then Branch(toks, m.(cur := m.cur + 1)) else m)
            && (!m.ok ==> !Branch(toks, st).ok)
  {
    hide ExecSimple;
    StickyBranch(toks, ExecSimple(toks, st));
  }

  lemma {:induction false} BranchMeaningStep(body: seq<Simple>, s: Sto)
    requires body != []
    ensures BranchMeaning(body, s)
            == match SimpleMeaning(body[0], s) case Ends(t) => BranchMeaning(body[1..], t) case r => r
    ensures |body| == 1 ==> BranchMeaning(body, s) == SimpleMeaning(body[0], s)
  {
    hide SimpleMeaning;
  }

  lemma {:induction false} BranchRuns(body: seq<Simple>, toks: seq<Token>, st: St, s: Sto, names: set<string>)
    requires Terminated(toks) && Match(st, s, names) && body != [] && BranchOk(body, names)
    requires Occurs(toks, st.cur, BranchTokens(body)) && st.cur + |BranchTokens(body)| < |toks|
    requires Follows(toks[st.cur + |BranchTokens(body)|]) && toks[st.cur + |BranchTokens(body)|] != Op(':')
    ensures Does(st, Branch(toks, st), st.cur + |BranchTokens(body)|, BranchMeaning(body, s), names)
    decreases |body|
  {
    hide Holds, NamesFit, ExecSimple, SimpleTokens, BranchTokens, SimpleOk, SimpleMeaning, BranchMeaning, Branch;
    BranchParts(body, toks, st.cur);
    SimpleRuns(body[0], toks, st, s, names);
    BranchStep(toks, st);
    BranchMeaningStep(body, s);
    if |body| > 1 && SimpleMeaning(body[0], s).Ends? {
      var s1 := SimpleMeaning(body[0], s).sto;
      var m := ExecSimple(toks, st);
      var m1 := m.(cur := m.cur + 1);
      BranchRuns(body[1..], toks, m1, s1, names);
      DoesAfter(st, m1, Branch(toks, m1), m1.cur, st.cur + |BranchTokens(body)|, s1, BranchMeaning(body[1..], s1), names);
    }
  }

  /** An error raised inside a branch stays raised to its end. */
  lemma {:induction false} StickySimple(toks: seq<Token>, st: St)
    requires Terminated(toks) && st.cur < |toks| && !st.ok
    ensures !ExecSimple(toks, st).ok
  {
    hide Eval, GetVar;
    StickyPrint(toks, st.(cur := Advance(toks, st.cur)), 0, false);
  }

  lemma {:induction false} StickyPrint(toks: seq<Token>, st: St, col: nat, sep: bool)
    requires Terminated(toks) && st.cur < |toks| && !st.ok
    ensures !PrintLoop(toks, st, col, sep).ok
    decreases |toks| - st.cur
  {
    hide Eval;
    if toks[st.cur] == Op(';') {
      StickyPrint(toks, st.(cur := st.cur + 1), col, true);
    } else if toks[st.cur] == Op(',') {
      StickyPrint(toks, st.(cur := st.cur + 1, out := st.out + Blanks(NextTab(col) - col)), NextTab(col), true);
    }
  }

  lemma {:induction false} StickyBranch(toks: seq<Token>, st: St)
    requires Terminated(toks) && st.cur < |toks|
    ensures !st.ok && toks[st.cur] == Op(':') ==> !Branch(toks, st.(cur := st.cur + 1)).ok
    decreases |toks| - st.cur
  {
    hide ExecSimple;
    if !st.ok && toks[st.cur] == Op(':') {
      var m := st.(cur := st.cur + 1);
      StickySimple(toks, m);
      StickyBranch(toks, ExecSimple(toks, m));
    }
  }

  lemma {:induction false} SkipLine(toks: seq<Token>, cur: nat, end: nat)
    requires Terminated(toks) && cur <= end < |toks| && toks[end] == Newline
    requires forall i :: cur <= i < end ==> ChainToken(toks[i])
    ensures SkipToNewline(toks, cur) == end
    decreases end - cur
  {
    if cur < end { SkipLine(toks, cur + 1, end); }
  }

  lemma {:induction false} SkipBranch(toks: seq<Token>, cur: nat, end: nat)
    requires Terminated(toks) && cur <= end < |toks|
    requires toks[end] == Newline || toks[end] == Kw(ELSE) || toks[end] == Kw(ELSEIF)
    requires forall i :: cur <= i < end ==> LineToken(toks[i])
    ensures SkipFalseBranch(toks, cur) == end
    decreases end - cur
  {
    if cur < end { SkipBranch(toks, cur + 1, end); }
  }

  lemma {:induction false} OccursIn<T>(s: seq<T>, cur: nat, p: seq<T>)
    requires Occurs(s, cur, p)
    ensures forall i :: cur <= i < cur + |p| ==> s[i] in p
  {
    forall i | cur <= i < cur + |p| ensures s[i] in p {
      assert s[i] == p[i - cur];
    }
  }

  /** What follows the first arm of an IF line. */
  function ChainTail(arms: seq<Arm>, els: seq<Simple>): seq<Token>
    requires arms != []
  {
    if |arms| > 1 then [Kw(ELSEIF)] + ChainTokens(arms[1..], els)
    else if els != [] then [Kw(ELSE)] + BranchTokens(els)
    else []
  }

  lemma {:induction false} ChainShape(arms: seq<Arm>, els: seq<Simple>)
    requires arms != []
    ensures ChainTokens(arms, els) == ArmTokens(arms[0]) + ChainTail(arms, els)
    ensures ChainTail(arms, els) == []
            || (|arms| > 1 && ChainTail(arms, els)[0] == Kw(ELSEIF) && ChainTail(arms, els)[1..] == ChainTokens(arms[1..], els))
            || (|arms| == 1 && els != [] && ChainTail(arms, els)[0] == Kw(ELSE) && ChainTail(arms, els)[1..] == BranchTokens(els))
    ensures ChainTail(arms, els) == [] ==> |arms| == 1 && els == []
  {
    hide ArmTokens, BranchTokens;
  }

  /** What stands behind the first arm: another arm, the ELSE branch, or the line's end. */
  predicate TailAt(arms: seq<Arm>, els: seq<Simple>, toks: seq<Token>, be: nat, end: nat) {
    && be <= end < |toks| && toks[end] == Newline && end + 1 < |toks|
    && if |arms| > 1 then toks[be] == Kw(ELSEIF) && Occurs(toks, be + 1, ChainTokens(arms[1..], els))
                          && end == be + 1 + |ChainTokens(arms[1..], els)|
       else if els != [] then toks[be] == Kw(ELSE) && Occurs(toks, be + 1, BranchTokens(els))
                              && end == be + 1 + |BranchTokens(els)|
       else be == end
  }

  /** The pieces of an IF line as the machine meets them. */
  lemma {:induction false} ChainParts(arms: seq<Arm>, els: seq<Simple>, toks: seq<Token>, cur: nat, end: nat)
    requires arms != [] && Occurs(toks, cur, ChainTokens(arms, els)) && end == cur + |ChainTokens(arms, els)| < |toks|
    requires Terminated(toks) && toks[end] == Newline
    ensures var th := cur + |BasicExpr.Print(arms[0].cond, OR_LEVEL)|;
            var be := th + 1 + |BranchTokens(arms[0].body)|;
            && Occurs(toks, cur, BasicExpr.Print(arms[0].cond, OR_LEVEL)) && toks[th] == Kw(THEN) && be <= end
            && Occurs(toks, th + 1, BranchTokens(arms[0].body))
            && TailAt(arms, els, toks, be, end)
  {
    hide BasicExpr.Print, BranchTokens, ChainTokens, ChainTail;
    ChainShape(arms, els);
    OccursSplit(toks, cur, ArmTokens(arms[0]), ChainTail(arms, els));
    SplitAround(toks, cur, BasicExpr.Print(arms[0].cond, OR_LEVEL), Kw(THEN), BranchTokens(arms[0].body));
    if ChainTail(arms, els) != [] {
      HeadAt(toks, cur + |ArmTokens(arms[0])|, ChainTail(arms, els));
    }
  }

  /** The two scans the machine makes over an IF line end where they should. */
  lemma {:induction false} ChainSkips(arms: seq<Arm>, els: seq<Simple>, toks: seq<Token>, cur: nat, end: nat, th: nat, be: nat)
    requires Terminated(toks) && arms != [] && cur <= th < be && TailAt(arms, els, toks, be, end)
    requires Occurs(toks, cur, ChainTokens(arms, els)) && end == cur + |ChainTokens(arms, els)|
    requires Occurs(toks, th + 1, BranchTokens(arms[0].body)) && be == th + 1 + |BranchTokens(arms[0].body)|
    ensures SkipToNewline(toks, be) == end && SkipFalseBranch(toks, th + 1) == be
  {
    hide BranchTokens, ChainTokens, SkipToNewline, SkipFalseBranch, LineToken, ChainToken;
    ChainIsLine(arms, els);
    OccursIn(toks, cur, ChainTokens(arms, els));
    SkipLine(toks, be, end);
    BranchIsLine(arms[0].body);
    OccursIn(toks, th + 1, BranchTokens(arms[0].body));
    SkipBranch(toks, th + 1, be);
  }

  lemma {:induction false} BranchHead(body: seq<Simple>, toks: seq<Token>, cur: nat)
    requires body != [] && Occurs(toks, cur, BranchTokens(body))
    ensures cur < |toks| && !toks[cur].Num?
  {
    hide BranchTokens;
    BranchParts(body, toks, cur);
    HeadAt(toks, cur, SimpleTokens(body[0]));
  }

  lemma {:induction false} IfMeaningStep(arms: seq<Arm>, els: seq<Simple>, s: Sto)
    requires arms != []
    ensures IfMeaning(arms, els, s)
            == match Value(arms[0].cond, s.store)
               case None => Faults
               case Some(v) => if IsTrue(v) then BranchMeaning(arms[0].body, s)
                               else if |arms| > 1 then IfMeaning(arms[1..], els, s)
                               else BranchMeaning(els, s)
  {
    hide Value, BranchMeaning;
  }

  lemma {:induction false} IfRuns(arms: seq<Arm>, els: seq<Simple>, toks: seq<Token>, st: St, s: Sto, names: set<string>)
    requires Terminated(toks) && Match(st, s, names) && ArmsOk(arms, names) && BranchOk(els, names)
    requires Occurs(toks, st.cur, ChainTokens(arms, els)) && st.cur + |ChainTokens(arms, els)| < |toks|
    requires toks[st.cur + |ChainTokens(arms, els)|] == Newline
    ensures Does(st, IfChain(toks, st), st.cur + |ChainTokens(arms, els)|, IfMeaning(arms, els, s), names)
    decreases |arms|, 1
  {
    hide Holds, NamesFit, StopsFrom, Value, BasicExpr.Print, ChainTokens, BranchTokens, BranchOk, IfChain, EvalAt,
         ExprOk, Branch, BranchMeaning, IfMeaning, TailAt;
    var end := st.cur + |ChainTokens(arms, els)|;
    ChainParts(arms, els, toks, st.cur, end);
    FollowersStop(Kw(THEN));
    EvalAtMeaning(toks, st, arms[0].cond, s, names);
    IfMeaningStep(arms, els, s);
    var (v, t) := EvalAt(toks, st);
    if Value(arms[0].cond, s.store) == None {
      StickyIf(toks, st);
    } else {
      ChainSkips(arms, els, toks, st.cur, end, t.cur, t.cur + 1 + |BranchTokens(arms[0].body)|);
      if IsTrue(v) {
        TailFollows(arms, els, toks, t.cur + 1 + |BranchTokens(arms[0].body)|, end);
        IfTaken(arms[0].body, toks, st, t, t.cur + 1 + |BranchTokens(arms[0].body)|, end, s, names);
      } else {
        NotTakenIf(toks, st);
        IfNotTaken(arms, els, toks, st, t.(cur := t.cur + 1 + |BranchTokens(arms[0].body)|), end, s, names);
      }
    }
  }

  lemma {:induction false} TailFollows(arms: seq<Arm>, els: seq<Simple>, toks: seq<Token>, be: nat, end: nat)
    requires TailAt(arms, els, toks, be, end)
    ensures Follows(toks[be]) && toks[be] != Op(':')
  {
  }

  /** Moving the cursor of a finished piece on does not change what it did. */
  lemma {:induction false} DoesOnward(st: St, b: St, t: St, be: nat, end: nat, r: Result, names: set<string>)
    requires Does(st, b, be, r, names) && t == b.(cur := t.cur) && (b.cur == be ==> t.cur == end)
    ensures Does(st, t, end, r, names)
  {
    hide Holds, NamesFit;
  }

  lemma {:induction false} MovedOn(st: St, t: St, cur: nat, s: Sto, names: set<string>)
    requires Moved(st, t, t.cur, s, names)
    ensures Moved(st, t.(cur := cur), cur, s, names) && Match(t.(cur := cur), s, names)
  {
    hide Holds, NamesFit;
  }

  lemma {:induction false} IfTaken(body: seq<Simple>, toks: seq<Token>, st: St, t: St, be: nat, end: nat,
                                   s: Sto, names: set<string>)
    requires Terminated(toks) && body != [] && BranchOk(body, names) && st.cur < |toks| && t == EvalAt(toks, st).1
    requires Moved(st, t, t.cur, s, names) && toks[t.cur] == Kw(THEN) && IsTrue(EvalAt(toks, st).0)
    requires Occurs(toks, t.cur + 1, BranchTokens(body)) && be == t.cur + 1 + |BranchTokens(body)| < |toks|
    requires Follows(toks[be]) && toks[be] != Op(':') && SkipToNewline(toks, be) == end
    ensures Does(st, IfChain(toks, st), end, BranchMeaning(body, s), names)
  {
    hide Holds, NamesFit, BranchTokens, BranchOk, IfChain, EvalAt, Branch, BranchMeaning, SkipToNewline, Does, Moved, Match;
    var m := t.(cur := t.cur + 1);
    MovedOn(st, t, t.cur + 1, s, names);
    BranchHead(body, toks, m.cur);
    TakenIf(toks, st);
    BranchRuns(body, toks, m, s, names);
    var b := Branch(toks, m);
    DoesAfter(st, m, b, m.cur, be, s, BranchMeaning(body, s), names);
    DoesOnward(st, b, b.(cur := SkipToNewline(toks, b.cur)), be, end, BranchMeaning(body, s), names);
  }

  lemma {:induction false} IfNotTaken(arms: seq<Arm>, els: seq<Simple>, toks: seq<Token>, st: St, m: St, end: nat,
                                      s: Sto, names: set<string>)
    requires Terminated(toks) && ArmsOk(arms, names) && BranchOk(els, names) && st.cur < |toks|
    requires Moved(st, m, m.cur, s, names) && TailAt(arms, els, toks, m.cur, end)
    requires IfChain(toks, st) == if toks[m.cur] == Kw(ELSEIF) then IfChain(toks, m.(cur := m.cur + 1))
                                  else if toks[m.cur] == Kw(ELSE) then Branch(toks, m.(cur := m.cur + 1))
                                  else m
    ensures Does(st, IfChain(toks, st), end,
                 if |arms| > 1 then IfMeaning(arms[1..], els, s) else BranchMeaning(els, s), names)
    decreases |arms|, 0
  {
    hide Holds, NamesFit, ChainTokens, BranchTokens, BranchOk, IfChain, ExprOk, Branch, IfMeaning, Match, Moved;
    MovedOn(st, m, m.cur + 1, s, names);
    var n := m.(cur := m.cur + 1);
    if |arms| > 1 {
      IfRuns(arms[1..], els, toks, n, s, names);
      DoesAfter(st, n, IfChain(toks, n), n.cur, end, s, IfMeaning(arms[1..], els, s), names);
    } else if els != [] {
      BranchRuns(els, toks, n, s, names);
      DoesAfter(st, n, Branch(toks, n), n.cur, end, s, BranchMeaning(els, s), names);
    } else {
      EmptyBranch(s);
    }
  }

  lemma {:induction false} EmptyBranch(s: Sto)
    ensures BranchMeaning([], s) == Ends(s)
  {
  }

  lemma {:induction false} TakenIf(toks: seq<Token>, st: St)
    requires Terminated(toks) && st.cur < |toks|
    requires var (v, s1) := EvalAt(toks, st);
             toks[s1.cur] == Kw(THEN) && IsTrue(v) && !toks[s1.cur + 1].Num?
    ensures var b := Branch(toks, EvalAt(toks, st).1.(cur := EvalAt(toks, st).1.cur + 1));
            IfChain(toks, st) == b.(cur := SkipToNewline(toks, b.cur))
  {
    hide Eval, Branch;
  }

  lemma {:induction false} NotTakenIf(toks: seq<Token>, st: St)
    requires Terminated(toks) && st.cur < |toks|
    requires var (v, s1) := EvalAt(toks, st); toks[s1.cur] == Kw(THEN) && !IsTrue(v)
    ensures var m := EvalAt(toks, st).1.(cur := EvalAt(toks, st).1.cur + 1);
            var c := SkipFalseBranch(toks, m.cur);
            IfChain(toks, st) == if toks[c] == Kw(ELSEIF) then IfChain(toks, m.(cur := c + 1))
                                 else if toks[c] == Kw(ELSE) then Branch(toks, m.(cur := c + 1))
                                 else m.(cur := c)
  {
    hide Eval, Branch;
  }

  /** A condition that fails leaves the error standing, whatever branch is taken. */
  lemma {:induction false} StickyIf(toks: seq<Token>, st: St)
    requires Terminated(toks) && st.cur < |toks| && !EvalAt(toks, st).1.ok
    ensures !IfChain(toks, st).ok
    decreases |toks| - st.cur
  {
    hide Eval, Branch, IfChain;
    var (v, s1) := EvalAt(toks, st);
    if toks[s1.cur] != Kw(THEN) {
      MissingThen(toks, st);
    } else {
      var m := s1.(cur := s1.cur + 1);
      if IsTrue(v) {
        if toks[m.cur].Num? {
          JumpIf(toks, st);
        } else {
          TakenIf(toks, st);
          StickyFrom(toks, m);
        }
      } else {
        NotTakenIf(toks, st);
        var c := SkipFalseBranch(toks, m.cur);
        if toks[c] == Kw(ELSEIF) {
          StickyIf(toks, m.(cur := c + 1));
        } else if toks[c] == Kw(ELSE) {
          StickyFrom(toks, m.(cur := c + 1));
        }
      }
    }
  }

  lemma {:induction false} MissingThen(toks: seq<Token>, st: St)
    requires Terminated(toks) && st.cur < |toks| && toks[EvalAt(toks, st).1.cur] != Kw(THEN)
    ensures !IfChain(toks, st).ok
  {
  }

  lemma {:induction false} JumpIf(toks: seq<Token>, st: St)
    requires Terminated(toks) && st.cur < |toks|
    requires var (v, s1) := EvalAt(toks, st); toks[s1.cur] == Kw(THEN) && IsTrue(v) && toks[s1.cur + 1].Num?
    ensures !IfChain(toks, st).ok
  {
  }

  lemma {:induction false} StickyFrom(toks: seq<Token>, st: St)
    requires Terminated(toks) && st.cur < |toks| && !st.ok
    ensures !Branch(toks, st).ok
  {
    hide ExecSimple;
    StickySimple(toks, st);
    StickyBranch(toks, ExecSimple(toks, st));
  }
}
