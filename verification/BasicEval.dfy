/**
 GridBASIC tokens, the variable table, fixed-point operators, and the value the
 recursive-descent evaluator computes at a token cursor.
 */
module BasicEval {
  import opened Common
  import opened Numbers

  datatype Keyword =
    | PRINT | LET | IF | THEN | ELSE | ELSEIF | FOR | TO | STEP | NEXT
    | WHILE | WEND | REPEAT | UNTIL | REM | END | STOP
    | OR | AND | NOT | MOD | DIV
    | OtherKeyword

  /** `Id` stands for a variable name; the tokenizer has already folded its case. */
  datatype Token = Num(n: int) | Id(name: string) | Kw(kw: Keyword) | Op(c: char) | Newline | Eof

  /** The token array always ends with the end-of-file token. */
  predicate Terminated(toks: seq<Token>) {
    toks != [] && toks[|toks| - 1] == Eof
  }

  /** `advance`: the cursor never leaves the array. */
  function Advance(toks: seq<Token>, cur: nat): nat {
    if cur + 1 < |toks| then cur + 1 else cur
  }

  // ---- variables ----

  const MAX_VARS: nat := 128
  const NAME_MAX: nat := 23

  datatype Var = Var(name: string, n: int)

  function FindVar(vars: seq<Var>, name: string): (i: nat)
    ensures i <= |vars|
    ensures i < |vars| ==> vars[i].name == name
    ensures forall j :: 0 <= j < i ==> vars[j].name != name
  {
    if vars == [] || vars[0].name == name then 0 else 1 + FindVar(vars[1..], name)
  }

  /** The numeric functions of the language; the others end in a dollar sign. */
  const BUILTINS: set<string> := {
    "ABS", "INT", "SGN", "SQR", "RND", "LEN", "VAL", "ASC", "MIN", "MAX", "FIX", "ROUND", "PI",
    "GRID.TIME", "GRID.RND", "GRID.PING", "GRID.CAP", "GRID.DISC.LEVEL", "GRID.DISC.XP"
  }

  /** A numeric variable and nothing else: no string, no function, no device statement. */
  predicate PlainName(name: string) { '$' !in name && '.' !in name && name !in BUILTINS }

  /** `get_var`: the table with the variable in it, created with value 0 if it was
      missing; the stored name is cut to 23 characters. None when the table is full, and
      for a name that is not plain, which is outside this model. */
  function GetVar(vars: seq<Var>, name: string): (r: Option<(seq<Var>, nat)>)
    ensures r.Some? ==> |vars| <= |r.value.0| && r.value.1 < |r.value.0|
  {
    var i := FindVar(vars, name);
    if !PlainName(name) then None
    else if i < |vars| then Some((vars, i))
    else if |vars| >= MAX_VARS then None
    else Some((vars + [Var(name[..Min(|name|, NAME_MAX)], 0)], |vars|))
  }

  // ---- operators ----

  datatype BinOp = Or | And | Eq | Ne | Lt | Gt | Le | Ge | Add | Sub | Mul | Div | Mod | IDiv

  function Truth(b: bool): int { if b then SCALE else 0 }

  function Wrap32(x: int): int { (x + 0x8000_0000) % 0x1_0000_0000 - 0x8000_0000 }

  function Wrap128(x: int): int {
    (x + 0x8000_0000_0000_0000_0000_0000_0000_0000) % 0x1_0000_0000_0000_0000_0000_0000_0000_0000
    - 0x8000_0000_0000_0000_0000_0000_0000_0000
  }

  /** The machine's quotient traps on the one 64-bit division that overflows. */
  predicate DivideFaults(a: int, b: int) { a == I64_MIN && b == -1 }

  /** The value of `a op b`; None where the processor raises a divide fault. */
  function Apply(op: BinOp, a: int, b: int): Option<int> {
    match op
    case Or => Some(Truth(a != 0 || b != 0))
    case And => Some(Truth(a != 0 && b != 0))
    case Eq => Some(Truth(a == b))
    case Ne => Some(Truth(a != b))
    case Lt => Some(Truth(a < b))
    case Gt => Some(Truth(a > b))
    case Le => Some(Truth(a <= b))
    case Ge => Some(Truth(a >= b))
    case Add => Some(Wrap64(a + b))
    case Sub => Some(Wrap64(a - b))
    case Mul => Some(Wrap64(TruncDiv(a * b, SCALE)))
    case Div => Some(if b == 0 then 0 else Wrap64(TruncDiv(a * SCALE, b)))
    case Mod => if b == 0 then Some(0) else if DivideFaults(a, b) then None else Some(TruncMod(a, b))
    case IDiv => if b == 0 then Some(0) else if DivideFaults(a, b) then None
                 else Some(Wrap64(TruncDiv(a, b) * SCALE))
  }

  function PowLoop(r: int, b: int, n: nat): int
    decreases n
  {
    if n == 0 then r else PowLoop(TruncDiv(Wrap128(r * b), SCALE), b, n - 1)
  }

  /** `pow_local`: integer powers only; a negative power of something that
      underflows to 0 divides by zero. */
  function Power(b: int, exp: int): Option<int> {
    var e := Wrap32(TruncDiv(exp, SCALE));
    if e == 0 then Some(SCALE)
    else
      var r := PowLoop(SCALE, b, Max(0, if e < 0 then Wrap32(-e) else e));
      if e > 0 then Some(Wrap64(r))
      else if r == 0 then None
      else Some(Wrap64(TruncDiv(SCALE * SCALE, r)))
  }

  // ---- the evaluator ----

  const OR_LEVEL: nat := 0
  const AND_LEVEL: nat := 1
  const NOT_LEVEL: nat := 2
  const CMP_LEVEL: nat := 3
  const ADD_LEVEL: nat := 4
  const MUL_LEVEL: nat := 5
  const POW_LEVEL: nat := 6
  const PRIMARY_LEVEL: nat := 7

  const MAX_EVAL_DEPTH: nat := 32

  predicate BinaryLevel(p: nat) { p <= MUL_LEVEL && p != NOT_LEVEL }

  /** The left-associative operator a token denotes at a level of the grammar. */
  function OpAt(p: nat, t: Token): Option<BinOp> {
    if p == OR_LEVEL then (if t == Kw(OR) then Some(Or) else None)
    else if p == AND_LEVEL then (if t == Kw(AND) then Some(And) else None)
    else if p == CMP_LEVEL then
      match t
      case Op('=') => Some(Eq)
      case Op('#') => Some(Ne)
      case Op('<') => Some(Lt)
      case Op('>') => Some(Gt)
      case Op('L') => Some(Le)
      case Op('G') => Some(Ge)
      case _ => None
    else if p == ADD_LEVEL then
      (if t == Op('+') then Some(Add) else if t == Op('-') then Some(Sub) else None)
    else if p == MUL_LEVEL then
      (if t == Op('*') then Some(Mul) else if t == Op('/') then Some(Div)
       else if t == Kw(MOD) then Some(Mod) else if t == Kw(DIV) then Some(IDiv) else None)
    else None
  }

  /** Outcome of an evaluation: value, cursor, variable table, and whether no error
      was raised and no divide fault occurred. */
  datatype Ev = Ev(v: int, cur: nat, vars: seq<Var>, ok: bool)

  function Put(e: Ev, v: Option<int>, ok: bool): Ev {
    match v
    case Some(n) => Ev(n, e.cur, e.vars, ok && e.ok)
    case None => Ev(0, e.cur, e.vars, false)
  }

  /** `eval_or` .. `eval_primary`, selected by grammar level. */
  function Eval(p: nat, toks: seq<Token>, cur: nat, depth: nat, vars: seq<Var>): (r: Ev)
    requires p <= PRIMARY_LEVEL && Terminated(toks) && cur < |toks|
    ensures cur <= r.cur < |toks|
    ensures r.ok ==> cur < r.cur
    ensures |vars| <= |r.vars|
    decreases |toks| - cur, PRIMARY_LEVEL - p, 1
  {
    if p == PRIMARY_LEVEL then
      if depth >= MAX_EVAL_DEPTH then Ev(0, cur, vars, false)
      else Primary(toks, cur, depth + 1, vars)
    else if p == NOT_LEVEL && toks[cur] == Kw(NOT) then
      var r := Eval(NOT_LEVEL, toks, cur + 1, depth, vars);
      r.(v := Truth(r.v == 0))
    else
      var l := Eval(p + 1, toks, cur, depth, vars);
      if p == NOT_LEVEL then l
      else if p == POW_LEVEL then PowRest(l, toks, depth)
      else Rest(p, l, toks, depth)
  }

  /** The operator loop of a left-associative level, entered with the left operand. */
  function Rest(p: nat, l: Ev, toks: seq<Token>, depth: nat): (r: Ev)
    requires BinaryLevel(p) && Terminated(toks) && l.cur < |toks|
    ensures l.cur <= r.cur < |toks|
    ensures r.ok ==> l.ok
    ensures |l.vars| <= |r.vars|
    decreases |toks| - l.cur, PRIMARY_LEVEL - p, 0
  {
    match OpAt(p, toks[l.cur])
    case None => l
    case Some(op) =>
      var r := Eval(p + 1, toks, l.cur + 1, depth, l.vars);
      Rest(p, Put(r, Apply(op, l.v, r.v), l.ok), toks, depth)
  }

  /** The loop of `eval_pow`, whose right operand is itself a power. */
  function PowRest(l: Ev, toks: seq<Token>, depth: nat): (r: Ev)
    requires Terminated(toks) && l.cur < |toks|
    ensures l.cur <= r.cur < |toks|
    ensures r.ok ==> l.ok
    ensures |l.vars| <= |r.vars|
    decreases |toks| - l.cur, PRIMARY_LEVEL - POW_LEVEL, 0
  {
    if toks[l.cur] == Op('^') then
      var r := Eval(POW_LEVEL, toks, l.cur + 1, depth, l.vars);
      PowRest(Put(r, Power(l.v, r.v), l.ok), toks, depth)
    else l
  }

  /** `eval_primary_inner` for numbers, variables, parentheses and prefix operators. */
  function Primary(toks: seq<Token>, cur: nat, depth: nat, vars: seq<Var>): (r: Ev)
    requires Terminated(toks) && cur < |toks|
    ensures cur <= r.cur < |toks|
    ensures r.ok ==> cur < r.cur
    ensures |vars| <= |r.vars|
    decreases |toks| - cur, 0, 0
  {
    match toks[cur]
    case Num(n) => Ev(n, cur + 1, vars, true)
    case Id(name) => Variable(toks, cur, name, vars)
    case Op('(') =>
      var r := Eval(OR_LEVEL, toks, cur + 1, depth, vars);
      if toks[r.cur] == Op(')') then r.(cur := Advance(toks, r.cur)) else r
    case Op('-') =>
      var r := Eval(PRIMARY_LEVEL, toks, cur + 1, depth, vars);
      r.(v := Wrap64(-r.v))
    case Op('+') => Eval(PRIMARY_LEVEL, toks, cur + 1, depth, vars)
    case Kw(NOT) =>
      var r := Eval(PRIMARY_LEVEL, toks, cur + 1, depth, vars);
      r.(v := Truth(r.v == 0))
    case _ => Ev(0, cur, vars, false)
  }

  /** A scalar variable is read, and created when it is new. A name followed by a
      parenthesis (array element or function call) is outside this model. */
  function Variable(toks: seq<Token>, cur: nat, name: string, vars: seq<Var>): (r: Ev)
    requires Terminated(toks) && cur < |toks| && toks[cur] == Id(name)
    ensures cur <= r.cur < |toks|
    ensures r.ok ==> cur < r.cur
    ensures |vars| <= |r.vars|
  {
    if toks[cur + 1] == Op('(') then Ev(0, cur + 1, vars, false)
    else
      match GetVar(vars, name)
      case None => Ev(0, cur + 1, vars, false)
      case Some((vs, i)) => Ev(vs[i].n, cur + 1, vs, true)
  }
}
