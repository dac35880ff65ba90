/**
 Structured GridBASIC programs: their token form and their big-step meaning.
 */
module BasicProgram {
  import opened Common
  import opened Numbers
  import opened BasicEval
  import opened BasicExpr
  import opened BasicMachine

  datatype Item = Show(e: Expr) | Semi | Comma

  datatype Simple = Let(x: string, e: Expr) | Print(items: seq<Item>)

  /** One condition of an IF line with the statements after its THEN. */
  datatype Arm = Arm(cond: Expr, body: seq<Simple>)

  datatype Stmt =
    | Do(s: Simple)
    | If(arms: seq<Arm>, els: seq<Simple>)
    | For(x: string, start: Expr, limit: Expr, step: Option<Expr>, headNl: bool, body: Block)
    | While(cond: Expr, headNl: bool, body: Block)
    | Repeat(headNl: bool, body: Block, until: Expr)

  /** Statements in order, each followed by a newline (`nl`) or a colon. */
  datatype Block = Done | Then(s: Stmt, nl: bool, rest: Block)

  // ---- token form ----

  function Sep(nl: bool): Token { if nl then Newline else Op(':') }

  function ItemTokens(i: Item): seq<Token> {
    match i
    case Show(e) => BasicExpr.Print(e, OR_LEVEL)
    case Semi => [Op(';')]
    case Comma => [Op(',')]
  }

  function ItemsTokens(items: seq<Item>): seq<Token> {
    if items == [] then [] else ItemTokens(items[0]) + ItemsTokens(items[1..])
  }

  function SimpleTokens(s: Simple): seq<Token> {
    match s
    case Let(x, e) => [Id(x), Op('=')] + BasicExpr.Print(e, OR_LEVEL)
    case Print(items) => [Kw(PRINT)] + ItemsTokens(items)
  }

  function BranchTokens(body: seq<Simple>): seq<Token> {
    if body == [] then []
    else if |body| == 1 then SimpleTokens(body[0])
    else SimpleTokens(body[0]) + [Op(':')] + BranchTokens(body[1..])
  }

  function ArmTokens(a: Arm): seq<Token> {
    BasicExpr.Print(a.cond, OR_LEVEL) + [Kw(THEN)] + BranchTokens(a.body)
  }

  /** What follows the IF keyword. */
  function ChainTokens(arms: seq<Arm>, els: seq<Simple>): seq<Token>
    requires arms != []
  {
    ArmTokens(arms[0]) +
    if |arms| > 1 then [Kw(ELSEIF)] + ChainTokens(arms[1..], els)
    else if els != [] then [Kw(ELSE)] + BranchTokens(els)
    else []
  }

  function StepTokens(step: Option<Expr>): seq<Token> {
    match step case None => [] case Some(e) => [Kw(STEP)] + BasicExpr.Print(e, OR_LEVEL)
  }

  function ForHead(x: string, start: Expr, limit: Expr, step: Option<Expr>): seq<Token> {
    [Kw(FOR), Id(x), Op('=')] + BasicExpr.Print(start, OR_LEVEL)
    + [Kw(TO)] + BasicExpr.Print(limit, OR_LEVEL) + StepTokens(step)
  }

  function StmtTokens(s: Stmt): seq<Token> {
    match s
    case Do(d) => SimpleTokens(d)
    case If(arms, els) => [Kw(IF)] + if arms == [] then [] else ChainTokens(arms, els)
    case For(x, start, limit, step, nl, body) =>
      ForHead(x, start, limit, step) + [Sep(nl)] + BlockTokens(body) + [Kw(NEXT), Id(x)]
    case While(c, nl, body) =>
      [Kw(WHILE)] + BasicExpr.Print(c, OR_LEVEL) + [Sep(nl)] + BlockTokens(body) + [Kw(WEND)]
    case Repeat(nl, body, c) =>
      [Kw(REPEAT)] + [Sep(nl)] + BlockTokens(body) + [Kw(UNTIL)] + BasicExpr.Print(c, OR_LEVEL)
  }

  function BlockTokens(b: Block): seq<Token> {
    match b
    case Done => []
    case Then(s, nl, rest) => StmtTokens(s) + [Sep(nl)] + BlockTokens(rest)
  }

  // ---- which programs are covered ----

  predicate ExprOk(e: Expr, names: set<string>) {
    Nesting(e, OR_LEVEL) <= MAX_EVAL_DEPTH && NamesIn(e, names)
  }

  /** Values printed one after another need a separator between them. */
  predicate ItemsOk(items: seq<Item>, names: set<string>) {
    && (forall i :: 0 <= i < |items| && items[i].Show? ==> ExprOk(items[i].e, names))
    && (forall i :: 0 <= i < |items| - 1 ==> !(items[i].Show? && items[i + 1].Show?))
  }

  predicate SimpleOk(s: Simple, names: set<string>) {
    match s
    case Let(x, e) => x in names && ExprOk(e, names)
    case Print(items) => ItemsOk(items, names)
  }

  predicate BranchOk(body: seq<Simple>, names: set<string>) {
    forall i :: 0 <= i < |body| ==> SimpleOk(body[i], names)
  }

  predicate ArmsOk(arms: seq<Arm>, names: set<string>) {
    && arms != []
    && forall i :: 0 <= i < |arms| ==> ExprOk(arms[i].cond, names) && arms[i].body != [] && BranchOk(arms[i].body, names)
  }

  /** Well formed with room for `room` more loop frames; a statement that follows an IF
      stands on a line of its own. */
  predicate StmtOk(s: Stmt, nl: bool, names: set<string>, room: nat) {
    match s
    case Do(d) => SimpleOk(d, names)
    case If(arms, els) => nl && ArmsOk(arms, names) && BranchOk(els, names)
    case For(x, start, limit, step, _, body) =>
      && room > 0 && x in names && ExprOk(start, names) && ExprOk(limit, names)
      && (step.Some? ==> ExprOk(step.value, names)) && BlockOk(body, names, room - 1)
    case While(c, _, body) => room > 0 && ExprOk(c, names) && BlockOk(body, names, room - 1)
    case Repeat(_, body, c) => room > 0 && ExprOk(c, names) && BlockOk(body, names, room - 1)
  }

  predicate BlockOk(b: Block, names: set<string>, room: nat) {
    match b
    case Done => true
    case Then(s, nl, rest) => StmtOk(s, nl, names, room) && BlockOk(rest, names, room)
  }

  // ---- meaning ----

  datatype Sto = Sto(store: Store, out: string)

  /** Ends in a state, faults (a division the machine cannot do), or is still running
      when the fuel is spent. */
  datatype Result = Ends(sto: Sto) | Faults | Runs

  function ItemsMeaning(items: seq<Item>, s: Sto, col: nat, sep: bool): Result {
    if items == [] then Ends(if sep then s else s.(out := s.out + "\n"))
    else
      match items[0]
      case Semi => ItemsMeaning(items[1..], s, col, true)
      case Comma => ItemsMeaning(items[1..], s.(out := s.out + Blanks(NextTab(col) - col)), NextTab(col), true)
      case Show(e) =>
        match Value(e, s.store)
        case None => Faults
        case Some(v) => ItemsMeaning(items[1..], s.(out := s.out + NumText(v)), col + |NumText(v)|, false)
  }

  function SimpleMeaning(d: Simple, s: Sto): Result {
    match d
    case Print(items) => ItemsMeaning(items, s, 0, false)
    case Let(x, e) =>
      match Value(e, s.store)
      case None => Faults
      case Some(v) => Ends(s.(store := s.store[x := v]))
  }

  function BranchMeaning(body: seq<Simple>, s: Sto): Result {
    if body == [] then Ends(s)
    else
      match SimpleMeaning(body[0], s)
      case Ends(t) => BranchMeaning(body[1..], t)
      case r => r
  }

  function IfMeaning(arms: seq<Arm>, els: seq<Simple>, s: Sto): Result {
    if arms == [] then BranchMeaning(els, s)
    else
      match Value(arms[0].cond, s.store)
      case None => Faults
      case Some(v) => if IsTrue(v) then BranchMeaning(arms[0].body, s) else IfMeaning(arms[1..], els, s)
  }

  /** Loop fuel k bounds how often any one loop may go round. */
  function StmtMeaning(c: Stmt, s: Sto, k: nat): Result
    decreases k, c, 0
  {
    match c
    case Do(d) => SimpleMeaning(d, s)
    case If(arms, els) => IfMeaning(arms, els, s)
    case For(x, start, limit, step, _, body) =>
      (match (Value(start, s.store), Value(limit, s.store), StepValue(step, s.store))
       case (Some(a), Some(b), Some(d)) => ForMeaning(x, b, d, body, s.(store := s.store[x := a]), k)
       case _ => Faults)
    case While(cond, _, body) => WhileMeaning(cond, body, s, k)
    case Repeat(_, body, until) => RepeatMeaning(body, until, s, k)
  }

  function StepValue(step: Option<Expr>, s: Store): Option<int> {
    match step case None => Some(SCALE) case Some(e) => Value(e, s)
  }

  function BlockMeaning(b: Block, s: Sto, k: nat): Result
    decreases k, b, 0
  {
    match b
    case Done => Ends(s)
    case Then(c, _, rest) =>
      match StmtMeaning(c, s, k)
      case Ends(t) => BlockMeaning(rest, t, k)
      case r => r
  }

  /** FOR tests at the end: the body runs at least once. */
  function ForMeaning(x: string, limit: int, step: int, body: Block, s: Sto, k: nat): Result
    decreases k, body, 1
  {
    if k == 0 then Runs
    else
      match BlockMeaning(body, s, k)
      case Ends(t) =>
        var v := Wrap64(Get(t.store, x) + step);
        var u := t.(store := t.store[x := v]);
        if Continues(v, limit, step) then ForMeaning(x, limit, step, body, u, k - 1) else Ends(u)
      case r => r
  }

  function WhileMeaning(cond: Expr, body: Block, s: Sto, k: nat): Result
    decreases k, body, 1
  {
    match Value(cond, s.store)
    case None => Faults
    case Some(v) =>
      if !IsTrue(v) then Ends(s)
      else if k == 0 then Runs
      else
        match BlockMeaning(body, s, k)
        case Ends(t) => WhileMeaning(cond, body, t, k - 1)
        case r => r
  }

  function RepeatMeaning(body: Block, until: Expr, s: Sto, k: nat): Result
    decreases k, body, 1
  {
    if k == 0 then Runs
    else
      match BlockMeaning(body, s, k)
      case Ends(t) =>
        (match Value(until, t.store)
         case None => Faults
         case Some(v) => if IsTrue(v) then Ends(t) else RepeatMeaning(body, until, t, k - 1))
      case r => r
  }
}
