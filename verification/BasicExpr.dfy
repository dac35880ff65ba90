/**
 Expressions as trees, their meaning and their printed form, and the proof that the
 evaluator computes the meaning of what was printed.
 */
module BasicExpr {
  import opened Common
  import opened Numbers
  import opened BasicEval

  datatype Expr =
    | Lit(n: int)
    | Ref(name: string)
    | Neg(e: Expr)
    | Pos(e: Expr)
    | Not(e: Expr)
    | Bin(op: BinOp, a: Expr, b: Expr)
    | Pow(a: Expr, b: Expr)

  type Store = map<string, int>

  function Get(s: Store, x: string): int { if x in s then s[x] else 0 }

  function Bind(a: Option<int>, f: int -> Option<int>): Option<int> {
    match a case None => None case Some(v) => f(v)
  }

  /** The meaning of an expression; None when its evaluation raises a divide fault. */
  function Value(e: Expr, s: Store): Option<int> {
    match e
    case Lit(n) => Some(n)
    case Ref(x) => Some(Get(s, x))
    case Neg(a) => Bind(Value(a, s), v => Some(Wrap64(-v)))
    case Pos(a) => Value(a, s)
    case Not(a) => Bind(Value(a, s), v => Some(Truth(v == 0)))
    case Bin(op, a, b) => Bind(Value(a, s), v => Bind(Value(b, s), w => Apply(op, v, w)))
    case Pow(a, b) => Bind(Value(a, s), v => Bind(Value(b, s), w => Power(v, w)))
  }

  // ---- printing ----

  function OpLevel(op: BinOp): nat {
    match op
    case Or => OR_LEVEL
    case And => AND_LEVEL
    case Eq | Ne | Lt | Gt | Le | Ge => CMP_LEVEL
    case Add | Sub => ADD_LEVEL
    case Mul | Div | Mod | IDiv => MUL_LEVEL
  }

  function OpToken(op: BinOp): Token {
    match op
    case Or => Kw(OR) case And => Kw(AND)
    case Eq => Op('=') case Ne => Op('#') case Lt => Op('<')
    case Gt => Op('>') case Le => Op('L') case Ge => Op('G')
    case Add => Op('+') case Sub => Op('-')
    case Mul => Op('*') case Div => Op('/') case Mod => Kw(MOD) case IDiv => Kw(DIV)
  }

  function Level(e: Expr): nat {
    match e
    case Bin(op, _, _) => OpLevel(op)
    case Pow(_, _) => POW_LEVEL
    case Not(_) => NOT_LEVEL
    case _ => PRIMARY_LEVEL
  }

  /** The tokens of e where the grammar expects level p: parenthesized if e binds looser. */
  function Print(e: Expr, p: nat): seq<Token>
    decreases e, if Level(e) < p then 1 else 0
  {
    if Level(e) < p then [Op('(')] + Print(e, OR_LEVEL) + [Op(')')]
    else
      match e
      case Lit(n) => [Num(n)]
      case Ref(x) => [Id(x)]
      case Neg(a) => [Op('-')] + Print(a, PRIMARY_LEVEL)
      case Pos(a) => [Op('+')] + Print(a, PRIMARY_LEVEL)
      case Not(a) => [Kw(NOT)] + Print(a, NOT_LEVEL)
      case Bin(op, a, b) => Print(a, OpLevel(op)) + [OpToken(op)] + Print(b, OpLevel(op) + 1)
      case Pow(a, b) => Print(a, PRIMARY_LEVEL) + [Op('^')] + Print(b, POW_LEVEL)
  }

  /** How deep calls of `eval_primary` nest while the printed form is evaluated. */
  function Nesting(e: Expr, p: nat): nat
    decreases e, if Level(e) < p then 1 else 0
  {
    if Level(e) < p then 1 + Nesting(e, OR_LEVEL)
    else
      match e
      case Lit(_) => 1
      case Ref(_) => 1
      case Neg(a) => 1 + Nesting(a, PRIMARY_LEVEL)
      case Pos(a) => 1 + Nesting(a, PRIMARY_LEVEL)
      case Not(a) => Nesting(a, NOT_LEVEL)
      case Bin(op, a, b) => Max(Nesting(a, OpLevel(op)), Nesting(b, OpLevel(op) + 1))
      case Pow(a, b) => Max(Nesting(a, PRIMARY_LEVEL), Nesting(b, POW_LEVEL))
  }

  /** No loop of a level from p on continues at token t, and t does not turn a name
      into a call. */
  predicate StopsFrom(p: nat, t: Token) {
    && t != Op('(')
    && (p <= POW_LEVEL ==> t != Op('^'))
    && forall q :: p <= q <= MUL_LEVEL ==> OpAt(q, t) == None
  }

  // ---- the variable table against the store ----

  predicate NamesIn(e: Expr, names: set<string>) {
    match e
    case Lit(_) => true
    case Ref(x) => x in names
    case Neg(a) => NamesIn(a, names)
    case Pos(a) => NamesIn(a, names)
    case Not(a) => NamesIn(a, names)
    case Bin(_, a, b) => NamesIn(a, names) && NamesIn(b, names)
    case Pow(a, b) => NamesIn(a, names) && NamesIn(b, names)
  }

  /** The names a program may use: plain, short enough to be stored whole, few enough to
      fit. */
  predicate NamesFit(names: set<string>) {
    |names| <= MAX_VARS && forall x :: x in names ==> PlainName(x) && |x| <= NAME_MAX
  }

  function Lookup(vars: seq<Var>, x: string): int {
    var i := FindVar(vars, x);
    if i < |vars| then vars[i].n else 0
  }

  /** The table holds the store: no name twice, only known names, equal values. */
  ghost predicate Holds(vars: seq<Var>, s: Store, names: set<string>) {
    && (forall i, j :: 0 <= i < j < |vars| ==> vars[i].name != vars[j].name)
    && (forall i :: 0 <= i < |vars| ==> vars[i].name in names)
    && (forall x: string :: Lookup(vars, x) == Get(s, x))
  }

  lemma {:induction false} DistinctNamesCount(vars: seq<Var>, names: set<string>)
    requires forall i, j :: 0 <= i < j < |vars| ==> vars[i].name != vars[j].name
    requires forall i :: 0 <= i < |vars| ==> vars[i].name in names
    ensures |vars| <= |names|
  {
    if vars != [] {
      var last := vars[|vars| - 1].name;
      DistinctNamesCount(vars[..|vars| - 1], names - {last});
    }
  }

  lemma {:induction false} FindLast(vars: seq<Var>, v: Var, x: string)
    ensures FindVar(vars + [v], x) == if FindVar(vars, x) < |vars| then FindVar(vars, x)
                                      else if v.name == x then |vars| else |vars| + 1
  {
    if vars == [] {
      assert [] + [v] == [v] && [v][1..] == [];
    } else {
      assert (vars + [v])[1..] == vars[1..] + [v];
      FindLast(vars[1..], v, x);
    }
  }

  /** Looking a known name up always succeeds, leaves the store as it was, and at most
      lengthens the table. */
  lemma {:induction false} GetVarHolds(vars: seq<Var>, s: Store, names: set<string>, x: string)
    requires Holds(vars, s, names) && NamesFit(names) && x in names
    ensures GetVar(vars, x).Some?
    ensures var (vs, i) := GetVar(vars, x).value;
            Holds(vs, s, names) && vars <= vs && i < |vs| && vs[i] == Var(x, Get(s, x))
  {
    hide PlainName;
    if FindVar(vars, x) == |vars| {
      DistinctNamesCount(vars, names - {x});
      assert x[..|x|] == x;
      assert Lookup(vars, x) == 0;
      forall y: string ensures Lookup(vars + [Var(x, 0)], y) == Get(s, y) {
        FindLast(vars, Var(x, 0), y);
        assert Lookup(vars, y) == Get(s, y);
      }
    } else {
      assert Lookup(vars, x) == Get(s, x);
    }
  }

  // ---- adequacy ----

  lemma {:induction false} OpTokenLevel(op: BinOp)
    ensures OpAt(OpLevel(op), OpToken(op)) == Some(op)
    ensures StopsFrom(OpLevel(op) + 1, OpToken(op))
  {
  }

  lemma {:induction false} PrintHead(e: Expr, p: nat)
    ensures Print(e, p) != []
    ensures p > NOT_LEVEL ==> Print(e, p)[0] != Kw(NOT)
    decreases e, if Level(e) < p then 1 else 0
  {
    if Level(e) < p {
      PrintHead(e, OR_LEVEL);
    } else {
      match e
      case Bin(op, a, b) => PrintHead(a, OpLevel(op));
      case Pow(a, b) => PrintHead(a, PRIMARY_LEVEL);
      case _ =>
    }
  }

  /** What a successful evaluation of e at the cursor returns. */
  ghost predicate Yields(r: Ev, e: Expr, cur: nat, p: nat, vars: seq<Var>, s: Store, names: set<string>) {
    && r.ok && Value(e, s) == Some(r.v)
    && r.cur == cur + |Print(e, p)|
    && vars <= r.vars && Holds(r.vars, s, names)
  }

  /** The printed form of e stands at the cursor, a token follows it, and the variable
      table holds the store and has room for the names in e. */
  ghost predicate Placed(e: Expr, p: nat, toks: seq<Token>, cur: nat,
                         vars: seq<Var>, s: Store, names: set<string>)
  {
    && p <= PRIMARY_LEVEL && Terminated(toks)
    && Occurs(toks, cur, Print(e, p)) && cur + |Print(e, p)| < |toks|
    && NamesFit(names) && NamesIn(e, names) && Holds(vars, s, names)
  }

  /** Nothing in e nests too deep and nothing in it faults. */
  ghost predicate Good(e: Expr, p: nat, depth: nat, s: Store) {
    depth + Nesting(e, p) <= MAX_EVAL_DEPTH && Value(e, s).Some?
  }

  /** A good expression yields its value; any other one ends in an error. */
  ghost predicate Outcome(r: Ev, e: Expr, p: nat, cur: nat, depth: nat,
                          vars: seq<Var>, s: Store, names: set<string>)
  {
    if Good(e, p, depth, s) then Yields(r, e, cur, p, vars, s, names) else !r.ok
  }

  // One unfolding of the evaluator each.

  lemma {:induction false} EvalDown(p: nat, toks: seq<Token>, cur: nat, depth: nat, vars: seq<Var>)
    requires p < PRIMARY_LEVEL && Terminated(toks) && cur < |toks| && (p == NOT_LEVEL ==> toks[cur] != Kw(NOT))
    ensures var l := Eval(p + 1, toks, cur, depth, vars);
            Eval(p, toks, cur, depth, vars) == if p == NOT_LEVEL then l
                                               else if p == POW_LEVEL then PowRest(l, toks, depth)
                                               else Rest(p, l, toks, depth)
  {
  }

  lemma {:induction false} EvalNot(toks: seq<Token>, cur: nat, depth: nat, vars: seq<Var>)
    requires Terminated(toks) && cur < |toks| && toks[cur] == Kw(NOT)
    ensures cur + 1 < |toks|
    ensures var r := Eval(NOT_LEVEL, toks, cur + 1, depth, vars);
            Eval(NOT_LEVEL, toks, cur, depth, vars) == r.(v := Truth(r.v == 0))
  {
  }

  lemma {:induction false} RestStep(p: nat, l: Ev, toks: seq<Token>, depth: nat, op: BinOp)
    requires BinaryLevel(p) && Terminated(toks) && l.cur < |toks| && OpAt(p, toks[l.cur]) == Some(op)
    ensures l.cur + 1 < |toks|
    ensures var r := Eval(p + 1, toks, l.cur + 1, depth, l.vars);
            Rest(p, l, toks, depth) == Rest(p, Put(r, Apply(op, l.v, r.v), l.ok), toks, depth)
  {
  }

  lemma {:induction false} PowStep(l: Ev, toks: seq<Token>, depth: nat)
    requires Terminated(toks) && l.cur < |toks| && toks[l.cur] == Op('^')
    ensures l.cur + 1 < |toks|
    ensures var r := Eval(POW_LEVEL, toks, l.cur + 1, depth, l.vars);
            PowRest(l, toks, depth) == PowRest(Put(r, Power(l.v, r.v), l.ok), toks, depth)
  {
  }

  lemma {:induction false} LoopsStop(p: nat, l: Ev, toks: seq<Token>, depth: nat)
    requires Terminated(toks) && l.cur < |toks| && StopsFrom(p, toks[l.cur])
    ensures BinaryLevel(p) ==> Rest(p, l, toks, depth) == l
    ensures p <= POW_LEVEL ==> PowRest(l, toks, depth) == l
    ensures StopsFrom(p + 1, toks[l.cur])
  {
  }

  lemma {:induction false} EvalPrimary(toks: seq<Token>, cur: nat, depth: nat, vars: seq<Var>)
    requires Terminated(toks) && cur < |toks| && depth < MAX_EVAL_DEPTH
    ensures Eval(PRIMARY_LEVEL, toks, cur, depth, vars) == Primary(toks, cur, depth + 1, vars)
  {
  }

  /** The tokens of a binary form: left operand, operator, right operand. */
  lemma {:induction false} SplitAround(toks: seq<Token>, cur: nat, A: seq<Token>, t: Token, B: seq<Token>)
    requires Occurs(toks, cur, A + [t] + B)
    ensures Occurs(toks, cur, A) && Occurs(toks, cur + |A| + 1, B)
    ensures cur + |A| < |toks| && toks[cur + |A|] == t
  {
    assert A + [t] + B == A + ([t] + B);
    OccursSplit(toks, cur, A, [t] + B);
    OccursSplit(toks, cur + |A|, [t], B);
    assert toks[cur + |A|] == toks[cur + |A|..cur + |A| + 1][0];
  }

  lemma {:induction false} HeadAt(toks: seq<Token>, cur: nat, p: seq<Token>)
    requires Occurs(toks, cur, p) && p != []
    ensures toks[cur] == p[0] && Occurs(toks, cur + 1, p[1..])
  {
    assert p == [p[0]] + p[1..];
    OccursSplit(toks, cur, [p[0]], p[1..]);
    assert toks[cur] == toks[cur..cur + |p|][0];
  }

  /** Where level p is not e's own, e prints as at the next level. */
  lemma {:induction false} SameForm(e: Expr, p: nat)
    requires Level(e) != p
    ensures Print(e, p) == Print(e, p + 1) && Nesting(e, p) == Nesting(e, p + 1)
  {
  }

  /** `eval_expr` and every level below it: exactly the good expressions evaluate without
      an error; then the value is that of e, the cursor stops just behind its text, and
      the store is unchanged. */
  lemma {:induction false} Adequate(e: Expr, p: nat, toks: seq<Token>, cur: nat, depth: nat,
                                    vars: seq<Var>, s: Store, names: set<string>)
    requires Placed(e, p, toks, cur, vars, s, names)
    requires StopsFrom(p, toks[cur + |Print(e, p)|])
    ensures Outcome(Eval(p, toks, cur, depth, vars), e, p, cur, depth, vars, s, names)
    decreases e, (if Level(e) < p then 1 else 0), PRIMARY_LEVEL - p, 3
  {
    hide Eval, Outcome, StopsFrom, Print, Holds, NamesFit, NamesIn;
    if p == PRIMARY_LEVEL {
      AdequatePrimary(e, toks, cur, depth, vars, s, names);
    } else if BinaryLevel(p) {
      AdequateBinary(e, p, toks, cur, depth, vars, s, names);
    } else if p == POW_LEVEL {
      AdequatePow(e, toks, cur, depth, vars, s, names);
    } else {
      AdequateNot(e, toks, cur, depth, vars, s, names);
    }
  }

  lemma {:induction false} AdequateBinary(e: Expr, p: nat, toks: seq<Token>, cur: nat, depth: nat,
                                          vars: seq<Var>, s: Store, names: set<string>)
    requires BinaryLevel(p) && Placed(e, p, toks, cur, vars, s, names)
    requires StopsFrom(p, toks[cur + |Print(e, p)|])
    ensures Outcome(Eval(p, toks, cur, depth, vars), e, p, cur, depth, vars, s, names)
    decreases e, (if Level(e) < p then 1 else 0), PRIMARY_LEVEL - p, 2
  {
    hide Eval, Rest, PowRest, Holds, NamesFit, StopsFrom, OpAt, Print, Nesting, Value, NamesIn, Good;
    LoopsStop(p, Ev(0, cur + |Print(e, p)|, [], true), toks, depth);
    Climb(e, p, toks, cur, depth, vars, s, names);
    var l :| FoldsInto(l, p, toks, cur, depth, vars) && Outcome(l, e, p, cur, depth, vars, s, names);
    if l.ok {
      LoopsStop(p, l, toks, depth);
    }
  }

  lemma {:induction false} AdequateNot(e: Expr, toks: seq<Token>, cur: nat, depth: nat,
                                       vars: seq<Var>, s: Store, names: set<string>)
    requires Placed(e, NOT_LEVEL, toks, cur, vars, s, names)
    requires StopsFrom(NOT_LEVEL, toks[cur + |Print(e, NOT_LEVEL)|])
    ensures Outcome(Eval(NOT_LEVEL, toks, cur, depth, vars), e, NOT_LEVEL, cur, depth, vars, s, names)
    decreases e, (if Level(e) < NOT_LEVEL then 1 else 0), PRIMARY_LEVEL - NOT_LEVEL, 2
  {
    hide Eval, Rest, PowRest, Primary, Holds, NamesFit, StopsFrom, OpAt;
    PrintHead(e, NOT_LEVEL);
    HeadAt(toks, cur, Print(e, NOT_LEVEL));
    LoopsStop(NOT_LEVEL, Ev(0, cur + |Print(e, NOT_LEVEL)|, [], true), toks, depth);
    if e.Not? {
      Adequate(e.e, NOT_LEVEL, toks, cur + 1, depth, vars, s, names);
      EvalNot(toks, cur, depth, vars);
    } else {
      PrintHead(e, CMP_LEVEL);
      SameForm(e, NOT_LEVEL);
      EvalDown(NOT_LEVEL, toks, cur, depth, vars);
      Adequate(e, CMP_LEVEL, toks, cur, depth, vars, s, names);
    }
  }

  // ---- the left-associative levels ----

  /** Evaluation at level p has reached the operator loop with l as its left operand. */
  ghost predicate FoldsInto(l: Ev, p: nat, toks: seq<Token>, cur: nat, depth: nat, vars: seq<Var>) {
    && BinaryLevel(p) && Terminated(toks) && cur < |toks| && l.cur < |toks|
    && Eval(p, toks, cur, depth, vars) == Rest(p, l, toks, depth)
  }

  /** The operands of a binary form stand where the evaluator looks for them. */
  lemma {:induction false} BinOperands(e: Expr, p: nat, toks: seq<Token>, cur: nat, vars: seq<Var>, s: Store, names: set<string>)
    requires e.Bin? && Level(e) == p && Placed(e, p, toks, cur, vars, s, names)
    ensures var mid := cur + |Print(e.a, p)|;
            && mid < |toks| && toks[mid] == OpToken(e.op)
            && Placed(e.a, p, toks, cur, vars, s, names)
            && mid + 1 + |Print(e.b, p + 1)| == cur + |Print(e, p)|
            && forall vs :: Holds(vs, s, names) ==> Placed(e.b, p + 1, toks, mid + 1, vs, s, names)
  {
    hide Holds, NamesFit;
    SplitAround(toks, cur, Print(e.a, p), OpToken(e.op), Print(e.b, p + 1));
  }

  lemma {:induction false} BinOutcome(e: Expr, p: nat, l: Ev, r: Ev, cur: nat, depth: nat, vars: seq<Var>, s: Store, names: set<string>)
    requires e.Bin? && Level(e) == p
    requires Good(e.a, p, depth, s) && Yields(l, e.a, cur, p, vars, s, names)
    requires Outcome(r, e.b, p + 1, l.cur + 1, depth, l.vars, s, names)
    ensures Outcome(Put(r, Apply(e.op, l.v, r.v), l.ok), e, p, cur, depth, vars, s, names)
  {
    hide Holds, Apply;
  }

  /** One round of the loop folds the operator and the right operand in. */
  lemma {:induction false} FoldStep(op: BinOp, p: nat, l: Ev, toks: seq<Token>, cur: nat, depth: nat, vars: seq<Var>)
    requires FoldsInto(l, p, toks, cur, depth, vars) && OpAt(p, toks[l.cur]) == Some(op)
    ensures l.cur + 1 < |toks|
    ensures var r := Eval(p + 1, toks, l.cur + 1, depth, l.vars);
            FoldsInto(Put(r, Apply(op, l.v, r.v), l.ok), p, toks, cur, depth, vars)
  {
    hide Eval, Rest, Apply;
    RestStep(p, l, toks, depth, op);
  }

  /** The part of the text that e occupies has been folded into the left operand when the
      operator loop reaches the token behind it. */
  lemma {:induction false} Climb(e: Expr, p: nat, toks: seq<Token>, cur: nat, depth: nat,
                                 vars: seq<Var>, s: Store, names: set<string>)
    requires BinaryLevel(p) && Placed(e, p, toks, cur, vars, s, names)
    requires StopsFrom(p + 1, toks[cur + |Print(e, p)|])
    ensures exists l :: FoldsInto(l, p, toks, cur, depth, vars) && Outcome(l, e, p, cur, depth, vars, s, names)
    decreases e, (if Level(e) < p then 1 else 0), PRIMARY_LEVEL - p, 1
  {
    hide Eval, Outcome, StopsFrom, FoldsInto, Print, Holds, NamesFit, NamesIn;
    if Level(e) != p {
      ClimbDown(e, p, toks, cur, depth, vars, s, names);
    } else {
      ClimbOver(e, p, toks, cur, depth, vars, s, names);
    }
  }

  lemma {:induction false} ClimbOver(e: Expr, p: nat, toks: seq<Token>, cur: nat, depth: nat,
                                     vars: seq<Var>, s: Store, names: set<string>)
    requires Level(e) == p && BinaryLevel(p) && Placed(e, p, toks, cur, vars, s, names)
    requires StopsFrom(p + 1, toks[cur + |Print(e, p)|])
    ensures exists l :: FoldsInto(l, p, toks, cur, depth, vars) && Outcome(l, e, p, cur, depth, vars, s, names)
    decreases e, 0, 0, 0
  {
    hide Eval, Rest, Holds, NamesFit, StopsFrom, OpAt, Apply, Print, Nesting, Value, NamesIn;
    BinOperands(e, p, toks, cur, vars, s, names);
    OpTokenLevel(e.op);
    Climb(e.a, p, toks, cur, depth, vars, s, names);
    var l :| FoldsInto(l, p, toks, cur, depth, vars) && Outcome(l, e.a, p, cur, depth, vars, s, names);
    if Good(e.a, p, depth, s) {
      FoldStep(e.op, p, l, toks, cur, depth, vars);
      Adequate(e.b, p + 1, toks, l.cur + 1, depth, l.vars, s, names);
      BinOutcome(e, p, l, Eval(p + 1, toks, l.cur + 1, depth, l.vars), cur, depth, vars, s, names);
    } else {
      BadOperand(e, p, depth, s);
    }
  }

  lemma {:induction false} BadOperand(e: Expr, p: nat, depth: nat, s: Store)
    requires e.Bin? && Level(e) == p && !Good(e.a, p, depth, s)
    ensures !Good(e, p, depth, s)
  {
  }

  /** A form that binds tighter than level p (or stands in parentheses) is its left operand. */
  lemma {:induction false} ClimbDown(e: Expr, p: nat, toks: seq<Token>, cur: nat, depth: nat,
                                     vars: seq<Var>, s: Store, names: set<string>)
    requires BinaryLevel(p) && Level(e) != p && Placed(e, p, toks, cur, vars, s, names)
    requires StopsFrom(p + 1, toks[cur + |Print(e, p)|])
    ensures exists l :: FoldsInto(l, p, toks, cur, depth, vars) && Outcome(l, e, p, cur, depth, vars, s, names)
    decreases e, (if Level(e) < p then 1 else 0), PRIMARY_LEVEL - p, 0
  {
    hide Eval, Rest, PowRest, Primary, Holds, NamesFit, StopsFrom, OpAt, Value, NamesIn, Print, Nesting;
    PrintHead(e, p);
    SameForm(e, p);
    PrintHead(e, p + 1);
    EvalDown(p, toks, cur, depth, vars);
    Adequate(e, p + 1, toks, cur, depth, vars, s, names);
    assert FoldsInto(Eval(p + 1, toks, cur, depth, vars), p, toks, cur, depth, vars);
  }

  // ---- powers ----

  lemma {:induction false} AdequatePow(e: Expr, toks: seq<Token>, cur: nat, depth: nat,
                                       vars: seq<Var>, s: Store, names: set<string>)
    requires Placed(e, POW_LEVEL, toks, cur, vars, s, names)
    requires StopsFrom(POW_LEVEL, toks[cur + |Print(e, POW_LEVEL)|])
    ensures Outcome(Eval(POW_LEVEL, toks, cur, depth, vars), e, POW_LEVEL, cur, depth, vars, s, names)
    decreases e, (if Level(e) < POW_LEVEL then 1 else 0), PRIMARY_LEVEL - POW_LEVEL, 2
  {
    hide Eval, Rest, PowRest, Holds, NamesFit, StopsFrom, OpAt, Power, Nesting, Value, NamesIn;
    EvalDown(POW_LEVEL, toks, cur, depth, vars);
    if e.Pow? {
      PowOperands(e, toks, cur, vars, s, names);
      CaretStopsPrimary();
      Adequate(e.a, PRIMARY_LEVEL, toks, cur, depth, vars, s, names);
      var l := Eval(PRIMARY_LEVEL, toks, cur, depth, vars);
      if l.ok {
        Adequate(e.b, POW_LEVEL, toks, l.cur + 1, depth, l.vars, s, names);
        PowFold(e, l, toks, cur, depth, vars, s, names);
      } else {
        BadBase(e, depth, s);
      }
    } else {
      AdequateBase(e, toks, cur, depth, vars, s, names);
    }
  }

  /** A form that is no power is what its first operand is. */
  lemma {:induction false} AdequateBase(e: Expr, toks: seq<Token>, cur: nat, depth: nat,
                                        vars: seq<Var>, s: Store, names: set<string>)
    requires !e.Pow? && Placed(e, POW_LEVEL, toks, cur, vars, s, names)
    requires StopsFrom(POW_LEVEL, toks[cur + |Print(e, POW_LEVEL)|])
    ensures Outcome(Eval(POW_LEVEL, toks, cur, depth, vars), e, POW_LEVEL, cur, depth, vars, s, names)
    decreases e, (if Level(e) < POW_LEVEL then 1 else 0), PRIMARY_LEVEL - POW_LEVEL, 1
  {
    hide Eval, PowRest, Holds, NamesFit, StopsFrom, Nesting, Value, NamesIn, Print;
    EvalDown(POW_LEVEL, toks, cur, depth, vars);
    SameForm(e, POW_LEVEL);
    LoopsStop(POW_LEVEL, Ev(0, cur + |Print(e, POW_LEVEL)|, [], true), toks, depth);
    Adequate(e, PRIMARY_LEVEL, toks, cur, depth, vars, s, names);
    var l := Eval(PRIMARY_LEVEL, toks, cur, depth, vars);
    if l.ok { LoopsStop(POW_LEVEL, l, toks, depth); }
  }

  lemma {:induction false} BadBase(e: Expr, depth: nat, s: Store)
    requires e.Pow? && !Good(e.a, PRIMARY_LEVEL, depth, s)
    ensures !Good(e, POW_LEVEL, depth, s)
  {
  }

  /** The operands of a power stand where the evaluator looks for them. */
  lemma {:induction false} PowOperands(e: Expr, toks: seq<Token>, cur: nat, vars: seq<Var>, s: Store, names: set<string>)
    requires e.Pow? && Placed(e, POW_LEVEL, toks, cur, vars, s, names)
    ensures var mid := cur + |Print(e.a, PRIMARY_LEVEL)|;
            && mid < |toks| && toks[mid] == Op('^')
            && Placed(e.a, PRIMARY_LEVEL, toks, cur, vars, s, names)
            && mid + 1 + |Print(e.b, POW_LEVEL)| == cur + |Print(e, POW_LEVEL)|
            && forall vs :: Holds(vs, s, names) ==> Placed(e.b, POW_LEVEL, toks, mid + 1, vs, s, names)
  {
    hide Holds, NamesFit;
    SplitAround(toks, cur, Print(e.a, PRIMARY_LEVEL), Op('^'), Print(e.b, POW_LEVEL));
  }

  lemma {:induction false} PowFold(e: Expr, l: Ev, toks: seq<Token>, cur: nat, depth: nat,
                vars: seq<Var>, s: Store, names: set<string>)
    requires e.Pow? && Terminated(toks) && l.cur + 1 < |toks| && toks[l.cur] == Op('^')
    requires Good(e.a, PRIMARY_LEVEL, depth, s) && Yields(l, e.a, cur, PRIMARY_LEVEL, vars, s, names)
    requires Outcome(Eval(POW_LEVEL, toks, l.cur + 1, depth, l.vars), e.b, POW_LEVEL, l.cur + 1, depth, l.vars, s, names)
    requires cur + |Print(e, POW_LEVEL)| < |toks| && StopsFrom(POW_LEVEL, toks[cur + |Print(e, POW_LEVEL)|])
    ensures Outcome(PowRest(l, toks, depth), e, POW_LEVEL, cur, depth, vars, s, names)
  {
    hide Eval, Rest, PowRest, Holds, StopsFrom, Power;
    PowStep(l, toks, depth);
    var r := Eval(POW_LEVEL, toks, l.cur + 1, depth, l.vars);
    var m := Put(r, Power(l.v, r.v), l.ok);
    if m.ok { LoopsStop(POW_LEVEL, m, toks, depth); }
  }

  lemma {:induction false} CaretStopsPrimary()
    ensures StopsFrom(PRIMARY_LEVEL, Op('^'))
  {
  }

  // ---- primaries ----

  lemma {:induction false} AdequatePrimary(e: Expr, toks: seq<Token>, cur: nat, depth: nat,
                                           vars: seq<Var>, s: Store, names: set<string>)
    requires Placed(e, PRIMARY_LEVEL, toks, cur, vars, s, names)
    requires StopsFrom(PRIMARY_LEVEL, toks[cur + |Print(e, PRIMARY_LEVEL)|])
    ensures Outcome(Eval(PRIMARY_LEVEL, toks, cur, depth, vars), e, PRIMARY_LEVEL, cur, depth, vars, s, names)
    decreases e, (if Level(e) < PRIMARY_LEVEL then 1 else 0), 0, 2
  {
    hide Rest, PowRest, Primary, Holds, StopsFrom, OpAt, NamesFit;
    if depth >= MAX_EVAL_DEPTH {
      NestingPositive(e);
    } else if Level(e) < PRIMARY_LEVEL {
      AdequateParen(e, toks, cur, depth, vars, s, names);
    } else if e.Neg? || e.Pos? {
      AdequateSign(e, toks, cur, depth, vars, s, names);
    } else {
      AdequateLeaf(e, toks, cur, depth, vars, s, names);
    }
  }

  lemma {:induction false} NestingPositive(e: Expr)
    ensures Nesting(e, PRIMARY_LEVEL) >= 1
  {
  }

  lemma {:induction false} AdequateParen(e: Expr, toks: seq<Token>, cur: nat, depth: nat,
                                         vars: seq<Var>, s: Store, names: set<string>)
    requires Placed(e, PRIMARY_LEVEL, toks, cur, vars, s, names) && Level(e) < PRIMARY_LEVEL
    ensures Outcome(Primary(toks, cur, depth + 1, vars), e, PRIMARY_LEVEL, cur, depth, vars, s, names)
    decreases e, 0, PRIMARY_LEVEL + 1
  {
    hide Eval, Primary, Outcome, Holds, StopsFrom, NamesFit, NamesIn;
    HeadAt(toks, cur, Print(e, PRIMARY_LEVEL));
    assert Print(e, PRIMARY_LEVEL)[1..] == Print(e, OR_LEVEL) + [Op(')')] + [];
    SplitAround(toks, cur + 1, Print(e, OR_LEVEL), Op(')'), []);
    ParenStops();
    Adequate(e, OR_LEVEL, toks, cur + 1, depth + 1, vars, s, names);
    PrimaryParen(toks, cur, depth + 1, vars);
    ParenOutcome(e, Eval(OR_LEVEL, toks, cur + 1, depth + 1, vars), toks, cur, depth, vars, s, names);
  }

  lemma {:induction false} PrimaryParen(toks: seq<Token>, cur: nat, depth: nat, vars: seq<Var>)
    requires Terminated(toks) && cur + 1 < |toks| && toks[cur] == Op('(')
    ensures var r := Eval(OR_LEVEL, toks, cur + 1, depth, vars);
            Primary(toks, cur, depth, vars) == if toks[r.cur] == Op(')') then r.(cur := Advance(toks, r.cur)) else r
  {
    hide Eval;
  }

  /** What stands in the parentheses is the outcome, and its end moves behind the closing one. */
  lemma {:induction false} ParenOutcome(e: Expr, r: Ev, toks: seq<Token>, cur: nat, depth: nat,
                                        vars: seq<Var>, s: Store, names: set<string>)
    requires Level(e) < PRIMARY_LEVEL && Terminated(toks) && r.cur < |toks|
    requires var end := cur + 1 + |Print(e, OR_LEVEL)|; end + 1 < |toks| && toks[end] == Op(')')
    requires Outcome(r, e, OR_LEVEL, cur + 1, depth + 1, vars, s, names)
    ensures Outcome(if toks[r.cur] == Op(')') then r.(cur := Advance(toks, r.cur)) else r, e, PRIMARY_LEVEL, cur, depth, vars, s, names)
  {
    hide Holds, Value;
    ParenForm(e);
  }

  lemma {:induction false} ParenForm(e: Expr)
    requires Level(e) < PRIMARY_LEVEL
    ensures |Print(e, PRIMARY_LEVEL)| == |Print(e, OR_LEVEL)| + 2 && Nesting(e, PRIMARY_LEVEL) == 1 + Nesting(e, OR_LEVEL)
  {
  }

  lemma {:induction false} ParenStops()
    ensures StopsFrom(OR_LEVEL, Op(')'))
  {
  }

  lemma {:induction false} AdequateSign(e: Expr, toks: seq<Token>, cur: nat, depth: nat,
                                        vars: seq<Var>, s: Store, names: set<string>)
    requires Placed(e, PRIMARY_LEVEL, toks, cur, vars, s, names) && (e.Neg? || e.Pos?)
    requires StopsFrom(PRIMARY_LEVEL, toks[cur + |Print(e, PRIMARY_LEVEL)|])
    ensures Outcome(Primary(toks, cur, depth + 1, vars), e, PRIMARY_LEVEL, cur, depth, vars, s, names)
    decreases e, 0, 0, 0
  {
    hide Eval, Rest, PowRest, Holds, StopsFrom, OpAt, NamesFit;
    HeadAt(toks, cur, Print(e, PRIMARY_LEVEL));
    assert Print(e, PRIMARY_LEVEL)[1..] == Print(e.e, PRIMARY_LEVEL);
    Adequate(e.e, PRIMARY_LEVEL, toks, cur + 1, depth + 1, vars, s, names);
  }

  lemma {:induction false} AdequateLeaf(e: Expr, toks: seq<Token>, cur: nat, depth: nat,
                     vars: seq<Var>, s: Store, names: set<string>)
    requires Placed(e, PRIMARY_LEVEL, toks, cur, vars, s, names) && (e.Lit? || e.Ref?)
    requires StopsFrom(PRIMARY_LEVEL, toks[cur + |Print(e, PRIMARY_LEVEL)|]) && depth < MAX_EVAL_DEPTH
    ensures Outcome(Primary(toks, cur, depth + 1, vars), e, PRIMARY_LEVEL, cur, depth, vars, s, names)
  {
    hide Eval, Rest, PowRest, Holds, OpAt, NamesFit, StopsFrom, GetVar;
    HeadAt(toks, cur, Print(e, PRIMARY_LEVEL));
    if e.Ref? {
      NameNotCalled(toks, cur + 1);
      GetVarHolds(vars, s, names, e.name);
    }
  }

  lemma {:induction false} NameNotCalled(toks: seq<Token>, i: nat)
    requires i < |toks| && StopsFrom(PRIMARY_LEVEL, toks[i])
    ensures toks[i] != Op('(')
  {
  }
}
