/**
 Whole programs: the token-cursor machine, round after round, does what the
 structured meaning of the program says, and loops exactly as long.
 */
module BasicLoops {
  import opened Common
  import opened Numbers
  import opened BasicEval
  import opened BasicExpr
  import opened BasicMachine
  import opened BasicProgram
  import opened BasicLines

  // ---- runs ----

  /** n rounds of the main loop. */
  function Run(toks: seq<Token>, st: St, n: nat): (r: St)
    requires Valid(toks, st)
    ensures Valid(toks, r)
    decreases n
  {
    if n == 0 then st else Run(toks, Step(toks, st), n - 1)
  }

  lemma {:induction false} RunAdd(toks: seq<Token>, st: St, m: nat, n: nat)
    requires Valid(toks, st)
    ensures Run(toks, st, m + n) == Run(toks, Run(toks, st, m), n)
    decreases m
  {
    hide Step;
    if m > 0 { RunAdd(toks, Step(toks, st), m - 1, n); }
  }

  lemma {:induction false} RunOne(toks: seq<Token>, st: St)
    requires Valid(toks, st)
    ensures Run(toks, st, 1) == Step(toks, st)
  {
    hide Step;
    assert Run(toks, Step(toks, st), 0) == Step(toks, st);
  }

  lemma {:induction false} HaltedStays(toks: seq<Token>, st: St, n: nat)
    requires Valid(toks, st) && Halted(toks, st)
    ensures Run(toks, st, n) == st
    decreases n
  {
    if n > 0 { HaltedStays(toks, st, n - 1); }
  }

  /** After n rounds the machine stands at `end` in state s with the given frames. */
  ghost predicate Arrives(toks: seq<Token>, st: St, n: nat, end: nat, frames: seq<Frame>, s: Sto, names: set<string>)
    requires Valid(toks, st)
  {
    var t := Run(toks, st, n);
    t.cur == end && t.frames == frames && Match(t, s, names) && SameNames(st.vars, t.vars)
  }

  /** The machine does what a meaning with loop fuel k says: it arrives in the final
      state, or fails, or is still going after at least k rounds. */
  ghost predicate Simulates(toks: seq<Token>, st: St, end: nat, frames: seq<Frame>, r: Result, k: nat, names: set<string>) {
    && Valid(toks, st)
    && match r
       case Ends(s) => exists n :: Arrives(toks, st, n, end, frames, s, names)
       case Faults => exists n :: !Run(toks, st, n).ok
       case Runs => exists n :: n >= k && !Halted(toks, Run(toks, st, n))
  }

  /** Putting m rounds in front of a simulation. */
  lemma {:induction false} After(toks: seq<Token>, st: St, m: nat, end: nat, frames: seq<Frame>, r: Result,
                                 j: nat, k: nat, names: set<string>)
    requires Valid(toks, st) && SameNames(st.vars, Run(toks, st, m).vars) && k <= m + j
    requires Simulates(toks, Run(toks, st, m), end, frames, r, j, names)
    ensures Simulates(toks, st, end, frames, r, k, names)
  {
    hide Match, Valid, Run, Halted;
    var t := Run(toks, st, m);
    match r
    case Ends(s) =>
      var n :| Arrives(toks, t, n, end, frames, s, names);
      RunAdd(toks, st, m, n);
      assert Arrives(toks, st, m + n, end, frames, s, names);
    case Faults =>
      var n :| !Run(toks, t, n).ok;
      RunAdd(toks, st, m, n);
      assert !Run(toks, st, m + n).ok;
    case Runs =>
      var n :| n >= j && !Halted(toks, Run(toks, t, n));
      RunAdd(toks, st, m, n);
      assert !Halted(toks, Run(toks, st, m + n));
  }

  /** One round that moves the machine to t, and a simulation from t. */
  lemma {:induction false} AfterStep(toks: seq<Token>, st: St, t: St, end: nat, frames: seq<Frame>, r: Result,
                                     j: nat, k: nat, names: set<string>)
    requires Valid(toks, st) && Step(toks, st) == t && SameNames(st.vars, t.vars) && k <= 1 + j
    requires Simulates(toks, t, end, frames, r, j, names)
    ensures Simulates(toks, st, end, frames, r, k, names)
  {
    hide Match, Valid, Run, Halted, Simulates, Step;
    RunOne(toks, st);
    After(toks, st, 1, end, frames, r, j, k, names);
  }

  /** A first piece that ends in state s, then the rest from there. */
  lemma {:induction false} Sequence(toks: seq<Token>, st: St, mid: nat, f: seq<Frame>, s: Sto,
                                    end: nat, frames: seq<Frame>, r: Result, k: nat, names: set<string>)
    requires Simulates(toks, st, mid, f, Ends(s), k, names)
    requires forall t :: Valid(toks, t) && t.cur == mid && t.frames == f && Match(t, s, names) && SameNames(st.vars, t.vars)
                         ==> Simulates(toks, t, end, frames, r, k, names)
    ensures Simulates(toks, st, end, frames, r, k, names)
  {
    hide Match, Valid, Run, Halted;
    var n :| Arrives(toks, st, n, mid, f, s, names);
    After(toks, st, n, end, frames, r, k, k, names);
  }

  /** A single round settles the matter. */
  lemma {:induction false} InOneStep(toks: seq<Token>, st: St, end: nat, frames: seq<Frame>, r: Result, k: nat, names: set<string>)
    requires Valid(toks, st)
    requires match r
             case Ends(s) => var t := Step(toks, st);
                             t.cur == end && t.frames == frames && Match(t, s, names) && SameNames(st.vars, t.vars)
             case Faults => !Step(toks, st).ok
             case Runs => false
    ensures Simulates(toks, st, end, frames, r, k, names)
  {
    hide Match, Valid, Run, Halted, Step;
    RunOne(toks, st);
    if r.Ends? {
      assert Arrives(toks, st, 1, end, frames, r.sto, names);
    } else {
      assert !Run(toks, st, 1).ok;
    }
  }

  /** The machine already stands where it should. */
  lemma {:induction false} Already(toks: seq<Token>, st: St, s: Sto, k: nat, names: set<string>)
    requires Valid(toks, st) && Match(st, s, names)
    ensures Simulates(toks, st, st.cur, st.frames, Ends(s), k, names)
  {
    hide Match, Valid;
    assert Arrives(toks, st, 0, st.cur, st.frames, s, names);
  }

  lemma {:induction false} OutOfFuel(toks: seq<Token>, st: St, end: nat, frames: seq<Frame>, names: set<string>)
    requires Valid(toks, st) && !Halted(toks, st)
    ensures Simulates(toks, st, end, frames, Runs, 0, names)
  {
    hide Valid, Halted;
    assert !Halted(toks, Run(toks, st, 0));
  }

  lemma {:induction false} SepStep(toks: seq<Token>, st: St, nl: bool, s: Sto, names: set<string>)
    requires Valid(toks, st) && Match(st, s, names) && toks[st.cur] == Sep(nl)
    ensures !Halted(toks, st) && st.cur + 1 < |toks| && Step(toks, st) == st.(cur := st.cur + 1)
    ensures Valid(toks, st.(cur := st.cur + 1)) && Match(st.(cur := st.cur + 1), s, names)
    ensures SameNames(st.vars, st.vars)
  {
    hide Holds, NamesFit;
  }

  lemma {:induction false} SepStops(nl: bool)
    ensures Follows(Sep(nl)) && StopsFrom(OR_LEVEL, Sep(nl))
  {
  }

  // ---- the scan over a WHILE body ----

  /** Tokens the scan passes over without counting. */
  predicate Uncounted(p: seq<Token>) {
    forall i :: 0 <= i < |p| ==> p[i] != Kw(WHILE) && p[i] != Kw(WEND) && p[i] != Eof
  }

  /** The scan, d loops deep, gets from cur to end. */
  predicate Skips(toks: seq<Token>, cur: nat, end: nat, d: nat) {
    Terminated(toks) && cur <= end < |toks| && d > 0 && SkipToWend(toks, cur, d) == SkipToWend(toks, end, d)
  }

  lemma {:induction false} ScanPlain(toks: seq<Token>, cur: nat, p: seq<Token>, d: nat)
    requires Terminated(toks) && Occurs(toks, cur, p) && cur + |p| < |toks| && d > 0 && Uncounted(p)
    ensures Skips(toks, cur, cur + |p|, d)
    decreases |p|
  {
    if p != [] {
      HeadAt(toks, cur, p);
      ScanPlain(toks, cur + 1, p[1..], d);
    }
  }

  lemma {:induction false} ExprUncounted(e: Expr)
    ensures Uncounted(BasicExpr.Print(e, OR_LEVEL))
  {
    PrintTokens(e, OR_LEVEL);
    var P := BasicExpr.Print(e, OR_LEVEL);
    forall i | 0 <= i < |P| ensures ExprToken(P[i]) {
      assert P[i] in P;
    }
  }

  lemma {:induction false} ForHeadUncounted(x: string, start: Expr, limit: Expr, step: Option<Expr>)
    ensures Uncounted(ForHead(x, start, limit, step))
  {
    hide BasicExpr.Print;
    ExprUncounted(start);
    ExprUncounted(limit);
    if step.Some? { ExprUncounted(step.value); }
  }

  lemma {:induction false} ScanToken(toks: seq<Token>, cur: nat, d: nat)
    requires Terminated(toks) && cur + 1 < |toks| && d > 0
    requires toks[cur] != Kw(WHILE) && toks[cur] != Kw(WEND) && toks[cur] != Eof
    ensures Skips(toks, cur, cur + 1, d)
  {
  }

  /** Nested loops are balanced, so the scan passes over a block at any depth. */
  lemma {:induction false} ScanBlock(toks: seq<Token>, cur: nat, b: Block, d: nat)
    requires Terminated(toks) && d > 0 && WellArmed(b)
    requires Occurs(toks, cur, BlockTokens(b)) && cur + |BlockTokens(b)| < |toks|
    ensures Skips(toks, cur, cur + |BlockTokens(b)|, d)
    decreases b
  {
    hide StmtTokens, SkipToWend, WellArmedStmt;
    match b
    case Done =>
    case Then(s, nl, rest) =>
      SplitAround(toks, cur, StmtTokens(s), Sep(nl), BlockTokens(rest));
      ScanStmt(toks, cur, s, d);
      ScanToken(toks, cur + |StmtTokens(s)|, d);
      ScanBlock(toks, cur + |StmtTokens(s)| + 1, rest, d);
  }

  /** Every IF has an arm. */
  predicate WellArmed(b: Block) {
    match b case Done => true case Then(s, _, rest) => WellArmedStmt(s) && WellArmed(rest)
  }

  predicate WellArmedStmt(s: Stmt) {
    match s
    case Do(_) => true
    case If(arms, _) => arms != []
    case For(_, _, _, _, _, body) => WellArmed(body)
    case While(_, _, body) => WellArmed(body)
    case Repeat(_, body, _) => WellArmed(body)
  }

  lemma {:induction false} OkWellArmed(b: Block, names: set<string>, room: nat)
    requires BlockOk(b, names, room)
    ensures WellArmed(b)
    decreases b
  {
    match b
    case Done =>
    case Then(s, nl, rest) =>
      OkWellArmed(rest, names, room);
      match s
      case Do(_) =>
      case If(_, _) =>
      case For(_, _, _, _, _, body) => OkWellArmed(body, names, room - 1);
      case While(_, _, body) => OkWellArmed(body, names, room - 1);
      case Repeat(_, body, _) => OkWellArmed(body, names, room - 1);
  }

  lemma {:induction false} ScanStmt(toks: seq<Token>, cur: nat, s: Stmt, d: nat)
    requires Terminated(toks) && WellArmedStmt(s) && d > 0
    requires Occurs(toks, cur, StmtTokens(s)) && cur + |StmtTokens(s)| < |toks|
    ensures Skips(toks, cur, cur + |StmtTokens(s)|, d)
    decreases s, 1
  {
    match s
    case Do(c) => ScanLine(toks, cur, s, d);
    case If(arms, els) => ScanLine(toks, cur, s, d);
    case For(x, start, limit, step, h, body) => ScanFor(toks, cur, s, d);
    case While(c, h, body) => ScanWhile(toks, cur, s, d);
    case Repeat(h, body, c) => ScanRepeat(toks, cur, s, d);
  }

  lemma {:induction false} ScanLine(toks: seq<Token>, cur: nat, s: Stmt, d: nat)
    requires Terminated(toks) && (s.Do? || (s.If? && s.arms != [])) && d > 0
    requires Occurs(toks, cur, StmtTokens(s)) && cur + |StmtTokens(s)| < |toks|
    ensures Skips(toks, cur, cur + |StmtTokens(s)|, d)
  {
    hide ChainTokens, SimpleTokens, Skips;
    if s.Do? {
      SimpleIsLine(s.s);
    } else {
      ChainIsLine(s.arms, s.els);
    }
    var P := StmtTokens(s);
    forall i | 0 <= i < |P| ensures P[i] == Kw(IF) || ChainToken(P[i]) {
      assert P[i] in P;
    }
    ScanPlain(toks, cur, P, d);
  }

  lemma {:induction false} ScanFor(toks: seq<Token>, cur: nat, s: Stmt, d: nat)
    requires Terminated(toks) && s.For? && WellArmedStmt(s) && d > 0
    requires Occurs(toks, cur, StmtTokens(s)) && cur + |StmtTokens(s)| < |toks|
    ensures Skips(toks, cur, cur + |StmtTokens(s)|, d)
    decreases s, 0
  {
    hide BlockTokens, ForHead, SkipToWend;
    var F, B, N := ForHead(s.x, s.start, s.limit, s.step), BlockTokens(s.body), [Kw(NEXT), Id(s.x)];
    LoopParts(toks, cur, F, Sep(s.headNl), B, N);
    ForHeadUncounted(s.x, s.start, s.limit, s.step);
    ScanPlain(toks, cur, F, d);
    ScanToken(toks, cur + |F|, d);
    ScanBlock(toks, cur + |F| + 1, s.body, d);
    ScanPlain(toks, cur + |F| + 1 + |B|, N, d);
  }

  lemma {:induction false} ScanWhile(toks: seq<Token>, cur: nat, s: Stmt, d: nat)
    requires Terminated(toks) && s.While? && WellArmedStmt(s) && d > 0
    requires Occurs(toks, cur, StmtTokens(s)) && cur + |StmtTokens(s)| < |toks|
    ensures Skips(toks, cur, cur + |StmtTokens(s)|, d)
    decreases s, 0
  {
    hide BlockTokens, BasicExpr.Print, SkipToWend;
    var C, B := BasicExpr.Print(s.cond, OR_LEVEL), BlockTokens(s.body);
    LoopParts(toks, cur, [Kw(WHILE)] + C, Sep(s.headNl), B, [Kw(WEND)]);
    HeadAt(toks, cur, [Kw(WHILE)] + C);
    ExprUncounted(s.cond);
    ScanPlain(toks, cur + 1, C, d + 1);
    ScanToken(toks, cur + 1 + |C|, d + 1);
    ScanBlock(toks, cur + 2 + |C|, s.body, d + 1);
    HeadAt(toks, cur + 2 + |C| + |B|, [Kw(WEND)]);
    ScanOpenClose(toks, cur, cur + 2 + |C| + |B|, d);
  }

  lemma {:induction false} ScanRepeat(toks: seq<Token>, cur: nat, s: Stmt, d: nat)
    requires Terminated(toks) && s.Repeat? && WellArmedStmt(s) && d > 0
    requires Occurs(toks, cur, StmtTokens(s)) && cur + |StmtTokens(s)| < |toks|
    ensures Skips(toks, cur, cur + |StmtTokens(s)|, d)
    decreases s, 0
  {
    hide BlockTokens, BasicExpr.Print, SkipToWend;
    var U, B := [Kw(UNTIL)] + BasicExpr.Print(s.until, OR_LEVEL), BlockTokens(s.body);
    assert StmtTokens(s) == [Kw(REPEAT)] + [Sep(s.headNl)] + B + U;
    LoopParts(toks, cur, [Kw(REPEAT)], Sep(s.headNl), B, U);
    HeadAt(toks, cur, [Kw(REPEAT)]);
    ExprUncounted(s.until);
    ScanToken(toks, cur, d);
    ScanToken(toks, cur + 1, d);
    ScanBlock(toks, cur + 2, s.body, d);
    ScanPlain(toks, cur + 2 + |B|, U, d);
  }

  lemma {:induction false} ScanOpenClose(toks: seq<Token>, cur: nat, wend: nat, d: nat)
    requires Terminated(toks) && d > 0 && cur + 1 < |toks| && toks[cur] == Kw(WHILE)
    requires Skips(toks, cur + 1, wend, d + 1) && toks[wend] == Kw(WEND) && wend + 1 < |toks|
    ensures Skips(toks, cur, wend + 1, d)
  {
  }

  /** The parts of a loop: head, separator, body, tail. */
  lemma {:induction false} LoopParts(toks: seq<Token>, cur: nat, head: seq<Token>, sep: Token, body: seq<Token>, tail: seq<Token>)
    requires Occurs(toks, cur, head + [sep] + body + tail)
    ensures Occurs(toks, cur, head) && cur + |head| < |toks| && toks[cur + |head|] == sep
    ensures Occurs(toks, cur + |head| + 1, body) && Occurs(toks, cur + |head| + 1 + |body|, tail)
  {
    assert head + [sep] + body + tail == head + [sep] + (body + tail);
    SplitAround(toks, cur, head, sep, body + tail);
    OccursSplit(toks, cur + |head| + 1, body, tail);
  }

  // ---- statements ----

  /** A statement stands at the cursor with its separator behind it. */
  ghost predicate StmtAt(c: Stmt, nl: bool, toks: seq<Token>, st: St, s: Sto, names: set<string>) {
    && st.cur + |StmtTokens(c)| < |toks| && toks[st.cur + |StmtTokens(c)|] == Sep(nl)
    && Occurs(toks, st.cur, StmtTokens(c))
    && Valid(toks, st) && Match(st, s, names) && StmtOk(c, nl, names, Max(0, MAX_FRAMES - |st.frames|))
  }

  ghost predicate BlockAt(b: Block, toks: seq<Token>, st: St, s: Sto, names: set<string>) {
    && Valid(toks, st) && Match(st, s, names) && BlockOk(b, names, Max(0, MAX_FRAMES - |st.frames|))
    && Occurs(toks, st.cur, BlockTokens(b)) && st.cur + |BlockTokens(b)| < |toks|
  }

  lemma {:induction false} BlockRuns(b: Block, toks: seq<Token>, st: St, s: Sto, k: nat, names: set<string>)
    requires BlockAt(b, toks, st, s, names)
    ensures Simulates(toks, st, st.cur + |BlockTokens(b)|, st.frames, BlockMeaning(b, s, k), k, names)
    decreases k, b, 3
  {
    hide Simulates, StmtTokens, StmtMeaning, StmtOk, Holds, NamesFit;
    match b
    case Done => Already(toks, st, s, k, names);
    case Then(c, nl, rest) => ThenRuns(c, nl, rest, toks, st, s, k, names);
  }

  lemma {:induction false} ThenRuns(c: Stmt, nl: bool, rest: Block, toks: seq<Token>, st: St, s: Sto, k: nat, names: set<string>)
    requires BlockAt(Then(c, nl, rest), toks, st, s, names)
    ensures Simulates(toks, st, st.cur + |BlockTokens(Then(c, nl, rest))|, st.frames,
                      BlockMeaning(Then(c, nl, rest), s, k), k, names)
    decreases k, Then(c, nl, rest), 2
  {
    hide Match, Valid, Simulates, StmtTokens, StmtOk, StmtMeaning, BlockMeaning;
    var mid, end := st.cur + |StmtTokens(c)|, st.cur + |BlockTokens(Then(c, nl, rest))|;
    SplitAround(toks, st.cur, StmtTokens(c), Sep(nl), BlockTokens(rest));
    StmtRuns(c, nl, toks, st, s, k, names);
    BlockCases(c, nl, rest, s, k);
    match StmtMeaning(c, s, k)
    case Ends(t) =>
      var r := BlockMeaning(rest, t, k);
      forall u | Valid(toks, u) && u.cur == mid && u.frames == st.frames && Match(u, t, names) && SameNames(st.vars, u.vars)
        ensures Simulates(toks, u, end, st.frames, r, k, names)
      {
        SepStep(toks, u, nl, t, names);
        var w := u.(cur := u.cur + 1);
        BlockRuns(rest, toks, w, t, k, names);
        AfterStep(toks, u, w, end, st.frames, r, k, k, names);
      }
      Sequence(toks, st, mid, st.frames, t, end, st.frames, r, k, names);
    case Faults => SameResult(toks, st, mid, st.frames, end, st.frames, Faults, k, names);
    case Runs => SameResult(toks, st, mid, st.frames, end, st.frames, Runs, k, names);
  }

  lemma {:induction false} BlockCases(c: Stmt, nl: bool, rest: Block, s: Sto, k: nat)
    ensures BlockMeaning(Then(c, nl, rest), s, k)
            == match StmtMeaning(c, s, k) case Ends(t) => BlockMeaning(rest, t, k) case r => r
  {
    hide StmtMeaning;
  }

  /** A piece that fails or keeps running settles the whole. */
  lemma {:induction false} SameResult(toks: seq<Token>, st: St, mid: nat, f: seq<Frame>, end: nat, frames: seq<Frame>, r: Result, k: nat, names: set<string>)
    requires !r.Ends? && Simulates(toks, st, mid, f, r, k, names)
    ensures Simulates(toks, st, end, frames, r, k, names)
  {
    hide Match, Valid, Run, Halted;
  }

  lemma {:induction false} StmtRuns(c: Stmt, nl: bool, toks: seq<Token>, st: St, s: Sto, k: nat, names: set<string>)
    requires StmtAt(c, nl, toks, st, s, names)
    ensures Simulates(toks, st, st.cur + |StmtTokens(c)|, st.frames, StmtMeaning(c, s, k), k, names)
    decreases k, c, 3
  {
    hide Simulates, StmtAt, BlockTokens, ForHead, ForMeaning, WhileMeaning, RepeatMeaning, BasicExpr.Print, ChainTokens,
         SimpleTokens, IfMeaning, SimpleMeaning;
    match c
    case Do(d) => DoRuns(d, nl, toks, st, s, k, names);
    case If(arms, els) => IfLineRuns(arms, els, nl, toks, st, s, k, names);
    case For(_, _, _, _, _, _) => ForRuns(c, nl, toks, st, s, k, names);
    case While(_, _, _) => WhileRuns(c, nl, toks, st, s, k, names);
    case Repeat(_, _, _) => RepeatRuns(c, nl, toks, st, s, k, names);
  }

  lemma {:induction false} DoRuns(d: Simple, nl: bool, toks: seq<Token>, st: St, s: Sto, k: nat, names: set<string>)
    requires StmtAt(Do(d), nl, toks, st, s, names)
    ensures Simulates(toks, st, st.cur + |SimpleTokens(d)|, st.frames, SimpleMeaning(d, s), k, names)
  {
    hide Match, SimpleTokens, SimpleOk, SimpleMeaning, Simulates, ExecSimple;
    SepStops(nl);
    SimpleRuns(d, toks, st, s, names);
    SimpleStep(toks, st, s, names);
    InOneStep(toks, st, st.cur + |SimpleTokens(d)|, st.frames, SimpleMeaning(d, s), k, names);
  }

  lemma {:induction false} SimpleStep(toks: seq<Token>, st: St, s: Sto, names: set<string>)
    requires Valid(toks, st) && Match(st, s, names) && (toks[st.cur].Id? || toks[st.cur] == Kw(PRINT))
    ensures Step(toks, st) == ExecSimple(toks, st)
  {
    hide ExecSimple, Holds, NamesFit, IfChain, ExecFor, ExecNext, ExecWhile, ExecWend, ExecUntil, SkipToNewline;
  }

  lemma {:induction false} IfLineRuns(arms: seq<Arm>, els: seq<Simple>, nl: bool, toks: seq<Token>, st: St,
                                      s: Sto, k: nat, names: set<string>)
    requires StmtAt(If(arms, els), nl, toks, st, s, names)
    ensures Simulates(toks, st, st.cur + |StmtTokens(If(arms, els))|, st.frames, IfMeaning(arms, els, s), k, names)
  {
    hide ChainTokens, ArmsOk, BranchOk, IfMeaning, Simulates, IfChain, Holds, NamesFit;
    var n := st.(cur := st.cur + 1);
    HeadAt(toks, st.cur, StmtTokens(If(arms, els)));
    assert StmtTokens(If(arms, els))[1..] == ChainTokens(arms, els) by { ArmsPresent(arms, names); }
    ArmsPresent(arms, names);
    IfRuns(arms, els, toks, n, s, names);
    IfStep(toks, st);
    InOneStep(toks, st, st.cur + |StmtTokens(If(arms, els))|, st.frames, IfMeaning(arms, els, s), k, names);
  }

  lemma {:induction false} ArmsPresent(arms: seq<Arm>, names: set<string>)
    requires ArmsOk(arms, names)
    ensures arms != []
  {
  }

  lemma {:induction false} IfStep(toks: seq<Token>, st: St)
    requires Valid(toks, st) && st.ok && st.running && toks[st.cur] == Kw(IF)
    ensures st.cur + 1 < |toks| && Step(toks, st) == IfChain(toks, st.(cur := st.cur + 1))
  {
    hide IfChain;
  }

  // ---- FOR ----

  /** The machine has just entered a FOR loop, or come back to it: the cursor is at the
      separator behind the head, the loop's frame is on top. */
  ghost predicate InFor(c: Stmt, toks: seq<Token>, st: St, base: seq<Frame>, i: nat, limit: int, step: int,
                        s: Sto, names: set<string>)
  {
    && c.For? && Valid(toks, st) && Match(st, s, names)
    && st.frames == base + [ForFrame(st.cur, i, limit, step)] && i < |st.vars| && st.vars[i].name == c.x
    && |st.frames| <= MAX_FRAMES && BlockOk(c.body, names, MAX_FRAMES - |st.frames|)
    && toks[st.cur] == Sep(c.headNl)
    && Occurs(toks, st.cur + 1, BlockTokens(c.body) + [Kw(NEXT), Id(c.x)])
    && st.cur + |BlockTokens(c.body)| + 3 < |toks|
  }

  lemma {:induction false} EnterForHolds(st: St, x: string, start: int, limit: int, step: int, s: Sto, names: set<string>)
    requires Match(st, s, names) && x in names && |st.frames| < MAX_FRAMES
    ensures var r := EnterFor(st, x, start, limit, step);
            && Match(r, s.(store := s.store[x := start]), names) && SameNames(st.vars, r.vars) && r.cur == st.cur
            && exists i :: 0 <= i < |r.vars| && r.vars[i].name == x
                           && r.frames == st.frames + [ForFrame(st.cur, i, limit, step)]
  {
    hide Holds, NamesFit, GetVar;
    GetVarHolds(st.vars, s.store, names, x);
    var (vs, i) := GetVar(st.vars, x).value;
    SetVarHolds(vs, i, start, s.store, names);
    assert SetVar(vs, i, start)[i].name == x;
  }

  /** The state in which the body of a FOR is first reached. */
  ghost predicate Entered(st: St, r: St, cur: nat, x: string, start: int, limit: int, step: int, s: Sto, names: set<string>) {
    && r.cur == cur && Match(r, s.(store := s.store[x := start]), names) && SameNames(st.vars, r.vars)
    && exists i :: 0 <= i < |r.vars| && r.vars[i].name == x && r.frames == st.frames + [ForFrame(cur, i, limit, step)]
  }

  lemma {:induction false} ForStepRuns(c: Stmt, nl: bool, toks: seq<Token>, st: St, start: int, limit: int, s: Sto, names: set<string>)
    requires c.For? && StmtOk(c, nl, names, Max(0, MAX_FRAMES - |st.frames|)) && Valid(toks, st) && Match(st, s, names)
    requires Occurs(toks, st.cur, StepTokens(c.step)) && st.cur + |StepTokens(c.step)| < |toks|
    requires toks[st.cur + |StepTokens(c.step)|] == Sep(c.headNl)
    ensures var r := ForStep(toks, st, c.x, start, limit);
            match StepValue(c.step, s.store)
            case None => !r.ok
            case Some(d) => Entered(st, r, st.cur + |StepTokens(c.step)|, c.x, start, limit, d, s, names)
  {
    hide EvalAt, EnterFor, Match, BasicExpr.Print, Value, ExprOk, BlockOk, Entered, Holds, Moved, ForStep, Occurs, Sep;
    SepStops(c.headNl);
    ForStepIs(toks, st, c.x, start, limit, c.step);
    if c.step.Some? {
      var n := st.(cur := st.cur + 1);
      MatchAt(st, st.cur + 1, s, names);
      StepPlaced(toks, st, c.step.value);
      EvalAtMeaning(toks, n, c.step.value, s, names);
      var (d, t) := EvalAt(toks, n);
      if Value(c.step.value, s.store).Some? {
        MovedHere(n, t, st.cur + |StepTokens(c.step)|, s, names);
        EnteredFrom(st, t, c.x, start, limit, d, s, names);
      } else {
        EnterSticky(t, c.x, start, limit, d);
      }
    } else {
      EnteredFrom(st, st, c.x, start, limit, SCALE, s, names);
    }
  }

  /** With and without a STEP. */
  lemma {:induction false} ForStepIs(toks: seq<Token>, st: St, x: string, start: int, limit: int, step: Option<Expr>)
    requires Valid(toks, st) && Occurs(toks, st.cur, StepTokens(step)) && st.cur + |StepTokens(step)| < |toks|
    requires step.None? ==> toks[st.cur] != Kw(STEP)
    ensures step.None? ==> ForStep(toks, st, x, start, limit) == EnterFor(st, x, start, limit, SCALE)
    ensures step.Some? ==> var (d, t) := EvalAt(toks, st.(cur := st.cur + 1)); ForStep(toks, st, x, start, limit) == EnterFor(t, x, start, limit, d)
  {
    hide EvalAt, EnterFor, BasicExpr.Print;
    if step.Some? { HeadAt(toks, st.cur, StepTokens(step)); }
  }

  lemma {:induction false} StepPlaced(toks: seq<Token>, st: St, e: Expr)
    requires Occurs(toks, st.cur, StepTokens(Some(e)))
    ensures |StepTokens(Some(e))| == 1 + |BasicExpr.Print(e, OR_LEVEL)| && Occurs(toks, st.cur + 1, BasicExpr.Print(e, OR_LEVEL))
  {
    hide BasicExpr.Print;
    HeadAt(toks, st.cur, StepTokens(Some(e)));
    assert StepTokens(Some(e))[1..] == BasicExpr.Print(e, OR_LEVEL);
  }

  lemma {:induction false} MovedHere(st: St, t: St, end: nat, s: Sto, names: set<string>)
    requires Moved(st, t, end, s, names)
    ensures t.cur == end && Match(t, s, names) && SameNames(st.vars, t.vars) && t.frames == st.frames
  {
    hide Match;
  }

  /** A loop entered after what stands before it has been evaluated. */
  lemma {:induction false} EnteredFrom(st: St, t: St, x: string, start: int, limit: int, step: int, s: Sto, names: set<string>)
    requires Match(t, s, names) && x in names && |t.frames| < MAX_FRAMES && SameNames(st.vars, t.vars) && t.frames == st.frames
    ensures Entered(st, EnterFor(t, x, start, limit, step), t.cur, x, start, limit, step, s, names)
  {
    hide EnterFor, Match;
    EnterForHolds(t, x, start, limit, step, s, names);
  }

  lemma {:induction false} MatchAt(st: St, cur: nat, s: Sto, names: set<string>)
    requires Match(st, s, names)
    ensures Match(st.(cur := cur), s, names) && SameNames(st.vars, st.vars)
  {
    hide Holds, NamesFit;
  }

  lemma {:induction false} MovedMatch(st: St, t: St, s: Sto, names: set<string>)
    requires Moved(st, t, t.cur, s, names)
    ensures Match(t, s, names) && SameNames(st.vars, t.vars) && t.frames == st.frames
    ensures forall v: seq<Var> :: SameNames(t.vars, v) ==> SameNames(st.vars, v)
  {
    hide Match;
  }

  lemma {:induction false} EnterSticky(st: St, x: string, start: int, limit: int, step: int)
    requires !st.ok
    ensures !EnterFor(st, x, start, limit, step).ok
  {
  }

  lemma {:induction false} StepSticky(toks: seq<Token>, st: St, x: string, start: int, limit: int)
    requires Valid(toks, st) && !st.ok
    ensures !ForStep(toks, st, x, start, limit).ok
  {
    hide Eval, EnterFor;
    var (step, s1) := EvalAt(toks, st.(cur := Advance(toks, st.cur)));
    EnterSticky(s1, x, start, limit, step);
    EnterSticky(st, x, start, limit, SCALE);
  }

  lemma {:induction false} LimitSticky(toks: seq<Token>, st: St, x: string, start: int)
    requires Valid(toks, st) && !st.ok
    ensures !ForLimit(toks, st, x, start).ok
  {
    hide Eval, ForStep;
    if toks[st.cur] == Kw(TO) {
      var (limit, s1) := EvalAt(toks, st.(cur := st.cur + 1));
      StepSticky(toks, s1, x, start, limit);
    }
  }

  /** What follows the start value of a FOR head. */
  function LimitTokens(c: Stmt): seq<Token>
    requires c.For?
  {
    [Kw(TO)] + BasicExpr.Print(c.limit, OR_LEVEL) + StepTokens(c.step)
  }

  lemma {:induction false} ForLimitRuns(c: Stmt, nl: bool, toks: seq<Token>, st: St, start: int, s: Sto, names: set<string>)
    requires c.For? && StmtOk(c, nl, names, Max(0, MAX_FRAMES - |st.frames|)) && Valid(toks, st) && Match(st, s, names)
    requires var T := LimitTokens(c);
             Occurs(toks, st.cur, T) && st.cur + |T| < |toks| && toks[st.cur + |T|] == Sep(c.headNl)
    ensures var r := ForLimit(toks, st, c.x, start);
            var end := st.cur + |LimitTokens(c)|;
            match (Value(c.limit, s.store), StepValue(c.step, s.store))
            case (Some(b), Some(d)) => Entered(st, r, end, c.x, start, b, d, s, names)
            case _ => !r.ok
  {
    hide EvalAt, ForStep, Match, BasicExpr.Print, Value, StepValue, BlockOk, StepTokens;
    Split3(toks, st.cur, [Kw(TO)], BasicExpr.Print(c.limit, OR_LEVEL), StepTokens(c.step));
    HeadAt(toks, st.cur, [Kw(TO)]);
    var n := st.(cur := st.cur + 1);
    MatchAt(st, st.cur + 1, s, names);
    var q := n.cur + |BasicExpr.Print(c.limit, OR_LEVEL)|;
    StepHeadStops(toks, q, c.step, c.headNl);
    EvalAtMeaning(toks, n, c.limit, s, names);
    var (b, t) := EvalAt(toks, n);
    if Value(c.limit, s.store).Some? {
      MovedMatch(n, t, s, names);
      ForStepRuns(c, nl, toks, t, start, b, s, names);
    } else {
      StepSticky(toks, t, c.x, start, b);
    }
  }

  /** What stands behind the limit (STEP or the separator) ends its expression. */
  lemma {:induction false} StepHeadStops(toks: seq<Token>, q: nat, step: Option<Expr>, headNl: bool)
    requires Occurs(toks, q, StepTokens(step)) && q + |StepTokens(step)| < |toks|
    requires toks[q + |StepTokens(step)|] == Sep(headNl)
    ensures StopsFrom(OR_LEVEL, toks[q])
  {
    hide BasicExpr.Print, StopsFrom;
    SepStops(headNl);
    FollowersStop(Kw(STEP));
    if step.Some? { HeadAt(toks, q, StepTokens(step)); }
  }

  /** The pieces of a FOR head as the machine meets them. */
  lemma {:induction false} ForHeadParts(c: Stmt, toks: seq<Token>, cur: nat)
    requires c.For? && Occurs(toks, cur, StmtTokens(c)) && Terminated(toks)
    ensures var S, T := BasicExpr.Print(c.start, OR_LEVEL), LimitTokens(c);
            && toks[cur] == Kw(FOR) && toks[cur + 1] == Id(c.x) && toks[cur + 2] == Op('=')
            && Occurs(toks, cur + 3, S) && Occurs(toks, cur + 3 + |S|, T) && toks[cur + 3 + |S|] == Kw(TO)
            && cur + 3 + |S| + |T| == cur + |ForHead(c.x, c.start, c.limit, c.step)| < |toks|
            && toks[cur + 3 + |S| + |T|] == Sep(c.headNl)
  {
    hide BasicExpr.Print, StepTokens, BlockTokens;
    var S, T, F := BasicExpr.Print(c.start, OR_LEVEL), LimitTokens(c), ForHead(c.x, c.start, c.limit, c.step);
    LoopParts(toks, cur, F, Sep(c.headNl), BlockTokens(c.body), [Kw(NEXT), Id(c.x)]);
    assert F == [Kw(FOR), Id(c.x), Op('=')] + S + T;
    ForOpening(c.x, S, T, toks, cur);
  }

  /** Entering a FOR takes one round. */
  lemma {:induction false} ForEnters(c: Stmt, nl: bool, toks: seq<Token>, st: St, s: Sto, names: set<string>)
    requires c.For? && StmtAt(c, nl, toks, st, s, names)
    ensures var r := Step(toks, st);
            var end := st.cur + |ForHead(c.x, c.start, c.limit, c.step)|;
            match (Value(c.start, s.store), Value(c.limit, s.store), StepValue(c.step, s.store))
            case (Some(a), Some(b), Some(d)) => Entered(st, r, end, c.x, a, b, d, s, names)
            case _ => !r.ok
  {
    hide EvalAt, ForLimit, Match, BasicExpr.Print, Value, StepValue, BlockOk, StepTokens, BlockTokens, ForHead,
         StmtTokens, Step, LimitTokens;
    ForHeadParts(c, toks, st.cur);
    var n := st.(cur := st.cur + 3);
    MatchAt(st, st.cur + 3, s, names);
    FollowersStop(Kw(TO));
    EvalAtMeaning(toks, n, c.start, s, names);
    ForUnfold(toks, st, s, names);
    var (a, t) := EvalAt(toks, n);
    if Value(c.start, s.store).Some? {
      MovedMatch(n, t, s, names);
      ForLimitRuns(c, nl, toks, t, a, s, names);
    } else {
      LimitSticky(toks, t, c.x, a);
    }
  }

  lemma {:induction false} ForOpening(x: string, S: seq<Token>, T: seq<Token>, toks: seq<Token>, cur: nat)
    requires Occurs(toks, cur, [Kw(FOR), Id(x), Op('=')] + S + T) && T != [] && T[0] == Kw(TO)
    ensures toks[cur] == Kw(FOR) && toks[cur + 1] == Id(x) && toks[cur + 2] == Op('=')
    ensures Occurs(toks, cur + 3, S) && Occurs(toks, cur + 3 + |S|, T) && toks[cur + 3 + |S|] == Kw(TO)
  {
    var H := [Kw(FOR), Id(x), Op('=')];
    Split3(toks, cur, H, S, T);
    HeadAt(toks, cur, H);
    HeadAt(toks, cur + 1, H[1..]);
    HeadAt(toks, cur + 2, H[1..][1..]);
    HeadAt(toks, cur + 3 + |S|, T);
  }

  lemma {:induction false} ForUnfold(toks: seq<Token>, st: St, s: Sto, names: set<string>)
    requires Valid(toks, st) && Match(st, s, names) && st.cur + 3 < |toks|
    requires toks[st.cur] == Kw(FOR) && toks[st.cur + 1].Id? && toks[st.cur + 2] == Op('=')
    ensures var (a, t) := EvalAt(toks, st.(cur := st.cur + 3));
            Valid(toks, t) && Step(toks, st) == ForLimit(toks, t, toks[st.cur + 1].name, a)
  {
    hide Eval, ForLimit, Holds, NamesFit;
    var n := st.(cur := st.cur + 1);
    assert n.(cur := n.cur + 2) == st.(cur := st.cur + 3);
  }

  lemma {:induction false} ForRuns(c: Stmt, nl: bool, toks: seq<Token>, st: St, s: Sto, k: nat, names: set<string>)
    requires c.For? && StmtAt(c, nl, toks, st, s, names)
    ensures Simulates(toks, st, st.cur + |StmtTokens(c)|, st.frames, StmtMeaning(c, s, k), k, names)
    decreases k, c, 2
  {
    hide Match, Simulates, Step, BasicExpr.Print, Value, StepValue, BlockOk, ForHead, BlockTokens, ForMeaning, ExprOk;
    var F, B := ForHead(c.x, c.start, c.limit, c.step), BlockTokens(c.body);
    var end := st.cur + |StmtTokens(c)|;
    ForEnters(c, nl, toks, st, s, names);
    LoopParts(toks, st.cur, F, Sep(c.headNl), B, [Kw(NEXT), Id(c.x)]);
    LoopTail(toks, st.cur, F, Sep(c.headNl), B, [Kw(NEXT), Id(c.x)]);
    var t := Step(toks, st);
    match (Value(c.start, s.store), Value(c.limit, s.store), StepValue(c.step, s.store))
    case (Some(a), Some(b), Some(d)) =>
      var i :| 0 <= i < |t.vars| && t.vars[i].name == c.x
               && t.frames == st.frames + [ForFrame(st.cur + |F|, i, b, d)];
      var s1 := s.(store := s.store[c.x := a]);
      ForLoop(c, toks, t, st.frames, i, b, d, s1, k, names);
      AfterStep(toks, st, t, end, st.frames, ForMeaning(c.x, b, d, c.body, s1, k), k, k, names);
    case _ => InOneStep(toks, st, end, st.frames, Faults, k, names);
  }

  lemma {:induction false} LoopTail(toks: seq<Token>, cur: nat, head: seq<Token>, sep: Token, body: seq<Token>, tail: seq<Token>)
    requires Occurs(toks, cur, head + [sep] + body + tail)
    ensures Occurs(toks, cur + |head| + 1, body + tail)
  {
    assert head + [sep] + body + tail == head + [sep] + (body + tail);
    SplitAround(toks, cur, head, sep, body + tail);
  }

  /** NEXT at the end of a body: step the variable, go round or leave. */
  lemma {:induction false} NextStep(toks: seq<Token>, u: St, base: seq<Frame>, tok: nat, i: nat, limit: int, step: int,
                                    x: string, s: Sto, names: set<string>)
    requires Valid(toks, u) && Match(u, s, names) && u.frames == base + [ForFrame(tok, i, limit, step)]
    requires i < |u.vars| && u.vars[i].name == x && u.cur + 2 < |toks|
    requires toks[u.cur] == Kw(NEXT) && toks[u.cur + 1] == Id(x)
    ensures var v := Wrap64(Get(s.store, x) + step);
            var s1 := s.(store := s.store[x := v]);
            var r := Step(toks, u);
            && Match(r, s1, names) && SameNames(u.vars, r.vars) && i < |r.vars| && r.vars[i].name == x
            && if Continues(v, limit, step) then r.cur == tok && r.frames == u.frames
               else r.cur == u.cur + 2 && r.frames == base
  {
    hide Holds, NamesFit;
    SetVarHolds(u.vars, i, Wrap64(u.vars[i].n + step), s.store, names);
    assert u.frames[|u.frames| - 1] == ForFrame(tok, i, limit, step);
    assert u.frames[..|u.frames| - 1] == base;
  }

  lemma {:induction false} ForCases(x: string, limit: int, step: int, body: Block, s: Sto, k: nat)
    ensures ForMeaning(x, limit, step, body, s, k)
            == if k == 0 then Runs
               else match BlockMeaning(body, s, k)
                    case Ends(t) =>
                      var v := Wrap64(Get(t.store, x) + step);
                      var u := t.(store := t.store[x := v]);
                      (if Continues(v, limit, step) then ForMeaning(x, limit, step, body, u, k - 1) else Ends(u))
                    case r => r
  {
    hide BlockMeaning;
  }

  lemma {:induction false} ForLoop(c: Stmt, toks: seq<Token>, st: St, base: seq<Frame>, i: nat, limit: int, step: int,
                                   s: Sto, k: nat, names: set<string>)
    requires InFor(c, toks, st, base, i, limit, step, s, names)
    ensures Simulates(toks, st, st.cur + 1 + |BlockTokens(c.body)| + 2, base, ForMeaning(c.x, limit, step, c.body, s, k), k, names)
    decreases k, c.body, 6
  {
    hide Match, Valid, Simulates, BlockOk, BlockTokens, ForMeaning;
    ForCases(c.x, limit, step, c.body, s, k);
    var B := BlockTokens(c.body);
    var end := st.cur + 1 + |B| + 2;
    SepStep(toks, st, c.headNl, s, names);
    if k == 0 {
      OutOfFuel(toks, st, end, base, names);
    } else {
      OccursSplit(toks, st.cur + 1, B, [Kw(NEXT), Id(c.x)]);
      var n := st.(cur := st.cur + 1);
      var r := ForMeaning(c.x, limit, step, c.body, s, k);
      BlockRuns(c.body, toks, n, s, k, names);
      match BlockMeaning(c.body, s, k) {
      case Ends(t) =>
        forall u | Valid(toks, u) && u.cur == n.cur + |B| && u.frames == st.frames && Match(u, t, names) && SameNames(n.vars, u.vars)
          ensures Simulates(toks, u, end, base, r, k, names)
        {
          ForAgain(c, toks, st, u, base, i, limit, step, t, s, k, names);
        }
        Sequence(toks, n, n.cur + |B|, st.frames, t, end, base, r, k, names);
      case Faults => SameResult(toks, n, n.cur + |B|, st.frames, end, base, Faults, k, names);
      case Runs => SameResult(toks, n, n.cur + |B|, st.frames, end, base, Runs, k, names);
      }
      assert Simulates(toks, n, end, base, r, k, names);
      AfterStep(toks, st, n, end, base, r, k, k, names);
    }
  }

  lemma {:induction false} ForAgain(c: Stmt, toks: seq<Token>, st: St, u: St, base: seq<Frame>, i: nat, limit: int, step: int,
                                    t: Sto, s: Sto, k: nat, names: set<string>)
    requires k > 0 && InFor(c, toks, st, base, i, limit, step, s, names) && BlockMeaning(c.body, s, k) == Ends(t)
    requires Valid(toks, u) && u.cur == st.cur + 1 + |BlockTokens(c.body)| && u.frames == st.frames
    requires Match(u, t, names) && SameNames(st.vars, u.vars)
    ensures Simulates(toks, u, st.cur + 1 + |BlockTokens(c.body)| + 2, base, ForMeaning(c.x, limit, step, c.body, s, k), k, names)
    decreases k, c.body, 5
  {
    hide Match, Simulates, BlockOk, BlockTokens, Step, BlockMeaning, ForMeaning, Continues;
    ForCases(c.x, limit, step, c.body, s, k);
    var B := BlockTokens(c.body);
    var end := st.cur + 1 + |B| + 2;
    OccursSplit(toks, st.cur + 1, B, [Kw(NEXT), Id(c.x)]);
    HeadAt(toks, u.cur, [Kw(NEXT), Id(c.x)]);
    HeadAt(toks, u.cur + 1, [Id(c.x)]);
    NextStep(toks, u, base, st.cur, i, limit, step, c.x, t, names);
    var v := Wrap64(Get(t.store, c.x) + step);
    var t1 := t.(store := t.store[c.x := v]);
    var w := Step(toks, u);
    if Continues(v, limit, step) {
      ForLoop(c, toks, w, base, i, limit, step, t1, k - 1, names);
      AfterStep(toks, u, w, end, base, ForMeaning(c.x, limit, step, c.body, t1, k - 1), k - 1, k, names);
    } else {
      InOneStep(toks, u, end, base, Ends(t1), k, names);
    }
  }

  // ---- WHILE ----

  /** The machine stands at the separator behind the head of a WHILE whose condition, at
      `tok`, was just found true; the loop's frame is on top. */
  ghost predicate InWhile(c: Stmt, toks: seq<Token>, st: St, base: seq<Frame>, tok: nat, s: Sto, names: set<string>) {
    && c.While? && Valid(toks, st) && Match(st, s, names) && st.frames == base + [WhileFrame(tok)]
    && |st.frames| <= MAX_FRAMES && BlockOk(c.body, names, MAX_FRAMES - |st.frames|) && ExprOk(c.cond, names)
    && Occurs(toks, tok, BasicExpr.Print(c.cond, OR_LEVEL)) && st.cur == tok + |BasicExpr.Print(c.cond, OR_LEVEL)|
    && toks[st.cur] == Sep(c.headNl)
    && Occurs(toks, st.cur + 1, BlockTokens(c.body) + [Kw(WEND)]) && st.cur + |BlockTokens(c.body)| + 2 < |toks|
    && Value(c.cond, s.store).Some? && IsTrue(Value(c.cond, s.store).value)
  }

  /** The pieces of a WHILE loop as the machine meets them. */
  lemma {:induction false} WhileParts(c: Stmt, toks: seq<Token>, cur: nat)
    requires c.While? && Occurs(toks, cur, StmtTokens(c))
    ensures var C, B := BasicExpr.Print(c.cond, OR_LEVEL), BlockTokens(c.body);
            && toks[cur] == Kw(WHILE) && Occurs(toks, cur + 1, C) && toks[cur + 1 + |C|] == Sep(c.headNl)
            && Occurs(toks, cur + 2 + |C|, B + [Kw(WEND)]) && Occurs(toks, cur + 2 + |C|, B)
            && toks[cur + 2 + |C| + |B|] == Kw(WEND) && |StmtTokens(c)| == |C| + |B| + 3
  {
    hide BasicExpr.Print, BlockTokens;
    var C, B := BasicExpr.Print(c.cond, OR_LEVEL), BlockTokens(c.body);
    LoopParts(toks, cur, [Kw(WHILE)] + C, Sep(c.headNl), B, [Kw(WEND)]);
    LoopTail(toks, cur, [Kw(WHILE)] + C, Sep(c.headNl), B, [Kw(WEND)]);
    HeadAt(toks, cur, [Kw(WHILE)] + C);
    HeadAt(toks, cur + 2 + |C| + |B|, [Kw(WEND)]);
  }

  lemma {:induction false} WhileUnfold(toks: seq<Token>, st: St)
    requires Valid(toks, st) && st.ok && st.running && toks[st.cur] == Kw(WHILE) && |st.frames| < MAX_FRAMES
    ensures st.cur + 1 < |toks|
    ensures var n := st.(cur := st.cur + 1, frames := st.frames + [WhileFrame(st.cur + 1)]);
            var (v, t) := EvalAt(toks, n);
            Step(toks, st) == if IsTrue(v) then t else t.(cur := SkipToWend(toks, t.cur, 1), frames := st.frames)
  {
    hide Eval, SkipToWend;
  }

  /** A condition found false sends the machine behind the matching WEND. */
  lemma {:induction false} WhileSkipped(c: Stmt, toks: seq<Token>, cur: nat)
    requires c.While? && Terminated(toks) && Occurs(toks, cur, StmtTokens(c)) && WellArmed(c.body)
    requires cur + |StmtTokens(c)| < |toks|
    ensures SkipToWend(toks, cur + 1 + |BasicExpr.Print(c.cond, OR_LEVEL)|, 1) == cur + |StmtTokens(c)|
  {
    hide BasicExpr.Print, BlockTokens, StmtTokens;
    WhileParts(c, toks, cur);
    var q := cur + 1 + |BasicExpr.Print(c.cond, OR_LEVEL)|;
    SepStops(c.headNl);
    ScanToken(toks, q, 1);
    ScanBlock(toks, q + 1, c.body, 1);
  }

  lemma {:induction false} MatchFrames(st: St, cur: nat, frames: seq<Frame>, s: Sto, names: set<string>)
    requires Match(st, s, names)
    ensures Match(st.(cur := cur, frames := frames), s, names) && SameNames(st.vars, st.vars)
  {
    hide Holds, NamesFit;
  }

  /** The WHILE statement takes one round: into the body, or past the loop. */
  lemma {:induction false} WhileEnters(c: Stmt, nl: bool, toks: seq<Token>, st: St, s: Sto, names: set<string>)
    requires c.While? && StmtAt(c, nl, toks, st, s, names)
    ensures var r := Step(toks, st);
            match Value(c.cond, s.store)
            case None => !r.ok
            case Some(v) =>
              && Match(r, s, names) && SameNames(st.vars, r.vars)
              && if IsTrue(v) then r.cur == st.cur + 1 + |BasicExpr.Print(c.cond, OR_LEVEL)|
                                   && r.frames == st.frames + [WhileFrame(st.cur + 1)]
                 else r.cur == st.cur + |StmtTokens(c)| && r.frames == st.frames
  {
    hide EvalAt, Match, BasicExpr.Print, Value, BlockOk, BlockTokens, StmtTokens, Step, ExprOk, SkipToWend;
    WhileParts(c, toks, st.cur);
    var n := st.(cur := st.cur + 1, frames := st.frames + [WhileFrame(st.cur + 1)]);
    MatchFrames(st, n.cur, n.frames, s, names);
    SepStops(c.headNl);
    EvalAtMeaning(toks, n, c.cond, s, names);
    Live(st, s, names);
    WhileUnfold(toks, st);
    var (v, t) := EvalAt(toks, n);
    if Value(c.cond, s.store).Some? {
      MovedMatch(n, t, s, names);
      OkWellArmed(c.body, names, MAX_FRAMES - |st.frames| - 1);
      WhileSkipped(c, toks, st.cur);
      MatchFrames(t, SkipToWend(toks, t.cur, 1), st.frames, s, names);
    }
  }

  lemma {:induction false} Live(st: St, s: Sto, names: set<string>)
    requires Match(st, s, names)
    ensures st.ok && st.running
  {
    hide Holds, NamesFit;
  }

  lemma {:induction false} WhileRuns(c: Stmt, nl: bool, toks: seq<Token>, st: St, s: Sto, k: nat, names: set<string>)
    requires c.While? && StmtAt(c, nl, toks, st, s, names)
    ensures Simulates(toks, st, st.cur + |StmtTokens(c)|, st.frames, StmtMeaning(c, s, k), k, names)
    decreases k, c, 2
  {
    hide Match, Simulates, Step, BasicExpr.Print, Value, BlockOk, BlockTokens, ExprOk, StmtTokens, WhileMeaning;
    var end := st.cur + |StmtTokens(c)|;
    var r := WhileMeaning(c.cond, c.body, s, k);
    WhileEnters(c, nl, toks, st, s, names);
    WhileParts(c, toks, st.cur);
    WhileCases(c.cond, c.body, s, k);
    var t := Step(toks, st);
    if Value(c.cond, s.store).Some? && IsTrue(Value(c.cond, s.store).value) {
      WhileLoop(c, toks, t, st.frames, st.cur + 1, s, k, names);
      AfterStep(toks, st, t, end, st.frames, r, k, k, names);
    } else {
      InOneStep(toks, st, end, st.frames, r, k, names);
    }
  }

  lemma {:induction false} WhileCases(cond: Expr, body: Block, s: Sto, k: nat)
    ensures Value(cond, s.store) == None ==> WhileMeaning(cond, body, s, k) == Faults
    ensures Value(cond, s.store).Some? && !IsTrue(Value(cond, s.store).value) ==> WhileMeaning(cond, body, s, k) == Ends(s)
    ensures Value(cond, s.store).Some? && IsTrue(Value(cond, s.store).value) ==>
              WhileMeaning(cond, body, s, k)
              == if k == 0 then Runs
                 else match BlockMeaning(body, s, k) case Ends(t) => WhileMeaning(cond, body, t, k - 1) case r => r
  {
    hide Value, BlockMeaning;
  }

  /** WEND re-evaluates the condition at the head: round again, or on behind the WEND. */
  lemma {:induction false} WendStep(c: Stmt, toks: seq<Token>, st: St, u: St, base: seq<Frame>, tok: nat, s0: Sto, s: Sto, names: set<string>)
    requires InWhile(c, toks, st, base, tok, s0, names)
    requires Valid(toks, u) && Match(u, s, names) && u.frames == st.frames && SameNames(st.vars, u.vars)
    requires u.cur == st.cur + 1 + |BlockTokens(c.body)|
    ensures var r := Step(toks, u);
            match Value(c.cond, s.store)
            case None => !r.ok
            case Some(v) =>
              && Match(r, s, names) && SameNames(u.vars, r.vars)
              && if IsTrue(v) then r.cur == st.cur && r.frames == st.frames else r.cur == u.cur + 1 && r.frames == base
  {
    hide EvalAt, Match, BasicExpr.Print, Value, BlockOk, BlockTokens, Step, ExprOk;
    OccursSplit(toks, st.cur + 1, BlockTokens(c.body), [Kw(WEND)]);
    HeadAt(toks, u.cur, [Kw(WEND)]);
    var n := u.(cur := tok);
    MatchAt(u, tok, s, names);
    SepStops(c.headNl);
    EvalAtMeaning(toks, n, c.cond, s, names);
    Live(u, s, names);
    WendUnfold(toks, u, base, tok);
    var (v, t) := EvalAt(toks, n);
    if Value(c.cond, s.store).Some? {
      MovedMatch(n, t, s, names);
      MatchFrames(t, u.cur + 1, base, s, names);
    }
  }

  lemma {:induction false} WendUnfold(toks: seq<Token>, u: St, base: seq<Frame>, tok: nat)
    requires Valid(toks, u) && u.ok && u.running && toks[u.cur] == Kw(WEND) && u.frames == base + [WhileFrame(tok)]
    ensures u.cur + 1 < |toks| && tok < |toks|
    ensures var (v, t) := EvalAt(toks, u.(cur := tok));
            Step(toks, u) == if IsTrue(v) then t else t.(cur := u.cur + 1, frames := base)
  {
    hide Eval;
    assert u.frames[|u.frames| - 1] == WhileFrame(tok);
    assert u.frames[..|u.frames| - 1] == base;
    assert u.(cur := u.cur + 1).(cur := tok) == u.(cur := tok);
  }

  lemma {:induction false} WhileLoop(c: Stmt, toks: seq<Token>, st: St, base: seq<Frame>, tok: nat, s: Sto, k: nat, names: set<string>)
    requires InWhile(c, toks, st, base, tok, s, names)
    ensures Simulates(toks, st, st.cur + |BlockTokens(c.body)| + 2, base, WhileMeaning(c.cond, c.body, s, k), k, names)
    decreases k, c.body, 6
  {
    hide Match, Valid, Simulates, BlockOk, BlockTokens, Value, BasicExpr.Print, ExprOk, WhileMeaning;
    var B := BlockTokens(c.body);
    var end := st.cur + |B| + 2;
    SepStep(toks, st, c.headNl, s, names);
    WhileCases(c.cond, c.body, s, k);
    if k == 0 {
      OutOfFuel(toks, st, end, base, names);
    } else {
      OccursSplit(toks, st.cur + 1, B, [Kw(WEND)]);
      var n := st.(cur := st.cur + 1);
      var r := WhileMeaning(c.cond, c.body, s, k);
      BlockRuns(c.body, toks, n, s, k, names);
      match BlockMeaning(c.body, s, k) {
      case Ends(t) =>
        forall u | Valid(toks, u) && u.cur == n.cur + |B| && u.frames == st.frames && Match(u, t, names) && SameNames(n.vars, u.vars)
          ensures Simulates(toks, u, end, base, r, k, names)
        {
          WhileAgain(c, toks, st, u, base, tok, t, s, k, names);
        }
        Sequence(toks, n, n.cur + |B|, st.frames, t, end, base, r, k, names);
      case Faults => SameResult(toks, n, n.cur + |B|, st.frames, end, base, Faults, k, names);
      case Runs => SameResult(toks, n, n.cur + |B|, st.frames, end, base, Runs, k, names);
      }
      assert Simulates(toks, n, end, base, r, k, names);
      AfterStep(toks, st, n, end, base, r, k, k, names);
    }
  }

  lemma {:induction false} WhileAgain(c: Stmt, toks: seq<Token>, st: St, u: St, base: seq<Frame>, tok: nat,
                                      t: Sto, s: Sto, k: nat, names: set<string>)
    requires k > 0 && InWhile(c, toks, st, base, tok, s, names) && BlockMeaning(c.body, s, k) == Ends(t)
    requires Valid(toks, u) && u.cur == st.cur + 1 + |BlockTokens(c.body)| && u.frames == st.frames
    requires Match(u, t, names) && SameNames(st.vars, u.vars)
    ensures Simulates(toks, u, st.cur + |BlockTokens(c.body)| + 2, base, WhileMeaning(c.cond, c.body, s, k), k, names)
    decreases k, c.body, 5
  {
    hide Match, Simulates, BlockOk, BlockTokens, Step, BlockMeaning, Value, BasicExpr.Print, ExprOk, WhileMeaning;
    var end := st.cur + |BlockTokens(c.body)| + 2;
    WendStep(c, toks, st, u, base, tok, s, t, names);
    WhileCases(c.cond, c.body, s, k);
    WhileCases(c.cond, c.body, t, k - 1);
    var w := Step(toks, u);
    var r := WhileMeaning(c.cond, c.body, t, k - 1);
    if Value(c.cond, t.store).Some? && IsTrue(Value(c.cond, t.store).value) {
      WhileLoop(c, toks, w, base, tok, t, k - 1, names);
      AfterStep(toks, u, w, end, base, r, k - 1, k, names);
    } else {
      InOneStep(toks, u, end, base, r, k, names);
    }
  }

  // ---- REPEAT ----

  /** The machine stands at the separator behind REPEAT, the loop's frame on top. */
  ghost predicate InRepeat(c: Stmt, nl: bool, toks: seq<Token>, st: St, base: seq<Frame>, s: Sto, names: set<string>) {
    && c.Repeat? && Valid(toks, st) && Match(st, s, names) && st.frames == base + [RepeatFrame(st.cur)]
    && |st.frames| <= MAX_FRAMES && BlockOk(c.body, names, MAX_FRAMES - |st.frames|) && ExprOk(c.until, names)
    && toks[st.cur] == Sep(c.headNl)
    && Occurs(toks, st.cur + 1, BlockTokens(c.body))
    && var q := st.cur + 1 + |BlockTokens(c.body)|;
       && q + 1 + |BasicExpr.Print(c.until, OR_LEVEL)| < |toks| && toks[q] == Kw(UNTIL)
       && Occurs(toks, q + 1, BasicExpr.Print(c.until, OR_LEVEL))
       && toks[q + 1 + |BasicExpr.Print(c.until, OR_LEVEL)|] == Sep(nl)
  }

  function RepeatEnd(c: Stmt, cur: nat): nat
    requires c.Repeat?
  {
    cur + 2 + |BlockTokens(c.body)| + |BasicExpr.Print(c.until, OR_LEVEL)|
  }

  lemma {:induction false} RepeatParts(c: Stmt, toks: seq<Token>, cur: nat)
    requires c.Repeat? && Occurs(toks, cur, StmtTokens(c))
    ensures var C, B := BasicExpr.Print(c.until, OR_LEVEL), BlockTokens(c.body);
            && toks[cur] == Kw(REPEAT) && toks[cur + 1] == Sep(c.headNl) && Occurs(toks, cur + 2, B)
            && toks[cur + 2 + |B|] == Kw(UNTIL) && Occurs(toks, cur + 3 + |B|, C)
            && |StmtTokens(c)| == |B| + |C| + 3
  {
    hide BasicExpr.Print, BlockTokens;
    var C, B := BasicExpr.Print(c.until, OR_LEVEL), BlockTokens(c.body);
    assert StmtTokens(c) == [Kw(REPEAT)] + [Sep(c.headNl)] + B + ([Kw(UNTIL)] + C);
    LoopParts(toks, cur, [Kw(REPEAT)], Sep(c.headNl), B, [Kw(UNTIL)] + C);
    HeadAt(toks, cur, [Kw(REPEAT)]);
    HeadAt(toks, cur + 2 + |B|, [Kw(UNTIL)] + C);
    assert ([Kw(UNTIL)] + C)[1..] == C;
  }

  lemma {:induction false} RepeatUnfold(toks: seq<Token>, st: St)
    requires Valid(toks, st) && st.ok && st.running && toks[st.cur] == Kw(REPEAT) && |st.frames| < MAX_FRAMES
    ensures st.cur + 1 < |toks|
    ensures Step(toks, st) == st.(cur := st.cur + 1, frames := st.frames + [RepeatFrame(st.cur + 1)])
  {
  }

  lemma {:induction false} RepeatRuns(c: Stmt, nl: bool, toks: seq<Token>, st: St, s: Sto, k: nat, names: set<string>)
    requires c.Repeat? && StmtAt(c, nl, toks, st, s, names)
    ensures Simulates(toks, st, st.cur + |StmtTokens(c)|, st.frames, StmtMeaning(c, s, k), k, names)
    decreases k, c, 2
  {
    hide Match, Simulates, Step, BasicExpr.Print, BlockOk, BlockTokens, ExprOk, StmtTokens, RepeatMeaning;
    var end := st.cur + |StmtTokens(c)|;
    RepeatParts(c, toks, st.cur);
    Live(st, s, names);
    RepeatUnfold(toks, st);
    var t := st.(cur := st.cur + 1, frames := st.frames + [RepeatFrame(st.cur + 1)]);
    MatchFrames(st, t.cur, t.frames, s, names);
    assert RepeatEnd(c, t.cur) == end;
    RepeatLoop(c, nl, toks, t, st.frames, s, k, names);
    AfterStep(toks, st, t, end, st.frames, RepeatMeaning(c.body, c.until, s, k), k, k, names);
  }

  /** UNTIL: leave when the condition holds, else back to the head. */
  lemma {:induction false} UntilStep(c: Stmt, nl: bool, toks: seq<Token>, st: St, u: St, base: seq<Frame>, s0: Sto, s: Sto, names: set<string>)
    requires InRepeat(c, nl, toks, st, base, s0, names)
    requires Valid(toks, u) && Match(u, s, names) && u.frames == st.frames && SameNames(st.vars, u.vars)
    requires u.cur == st.cur + 1 + |BlockTokens(c.body)|
    ensures var r := Step(toks, u);
            match Value(c.until, s.store)
            case None => !r.ok
            case Some(v) =>
              && Match(r, s, names) && SameNames(u.vars, r.vars)
              && if IsTrue(v) then r.cur == RepeatEnd(c, st.cur) && r.frames == base
                 else r.cur == st.cur && r.frames == st.frames
  {
    hide EvalAt, Match, BasicExpr.Print, Value, BlockOk, BlockTokens, Step, ExprOk;
    var n := u.(cur := u.cur + 1);
    MatchAt(u, u.cur + 1, s, names);
    SepStops(nl);
    EvalAtMeaning(toks, n, c.until, s, names);
    Live(u, s, names);
    UntilUnfold(toks, u, base, st.cur);
    var (v, t) := EvalAt(toks, n);
    if Value(c.until, s.store).Some? {
      MovedMatch(n, t, s, names);
      MatchFrames(t, t.cur, base, s, names);
      MatchFrames(t, st.cur, t.frames, s, names);
    }
  }

  lemma {:induction false} UntilUnfold(toks: seq<Token>, u: St, base: seq<Frame>, tok: nat)
    requires Valid(toks, u) && u.ok && u.running && toks[u.cur] == Kw(UNTIL) && u.frames == base + [RepeatFrame(tok)]
    ensures u.cur + 1 < |toks|
    ensures var (v, t) := EvalAt(toks, u.(cur := u.cur + 1));
            Step(toks, u) == if IsTrue(v) then t.(frames := base) else t.(cur := tok)
  {
    hide Eval;
    assert u.frames[|u.frames| - 1] == RepeatFrame(tok);
    assert u.frames[..|u.frames| - 1] == base;
  }

  lemma {:induction false} RepeatCases(body: Block, until: Expr, s: Sto, k: nat)
    ensures RepeatMeaning(body, until, s, k)
            == if k == 0 then Runs
               else match BlockMeaning(body, s, k)
                    case Ends(t) =>
                      (match Value(until, t.store)
                       case None => Faults
                       case Some(v) => if IsTrue(v) then Ends(t) else RepeatMeaning(body, until, t, k - 1))
                    case r => r
  {
    hide Value, BlockMeaning;
  }

  lemma {:induction false} RepeatLoop(c: Stmt, nl: bool, toks: seq<Token>, st: St, base: seq<Frame>, s: Sto, k: nat, names: set<string>)
    requires InRepeat(c, nl, toks, st, base, s, names)
    ensures Simulates(toks, st, RepeatEnd(c, st.cur), base, RepeatMeaning(c.body, c.until, s, k), k, names)
    decreases k, c.body, 6
  {
    hide Match, Valid, Simulates, BlockOk, BlockTokens, Value, BasicExpr.Print, ExprOk, RepeatMeaning;
    var B, end := BlockTokens(c.body), RepeatEnd(c, st.cur);
    SepStep(toks, st, c.headNl, s, names);
    RepeatCases(c.body, c.until, s, k);
    if k == 0 {
      OutOfFuel(toks, st, end, base, names);
    } else {
      var n := st.(cur := st.cur + 1);
      var r := RepeatMeaning(c.body, c.until, s, k);
      BlockRuns(c.body, toks, n, s, k, names);
      match BlockMeaning(c.body, s, k) {
      case Ends(t) =>
        forall u | Valid(toks, u) && u.cur == n.cur + |B| && u.frames == st.frames && Match(u, t, names) && SameNames(n.vars, u.vars)
          ensures Simulates(toks, u, end, base, r, k, names)
        {
          RepeatAgain(c, nl, toks, st, u, base, t, s, k, names);
        }
        Sequence(toks, n, n.cur + |B|, st.frames, t, end, base, r, k, names);
      case Faults => SameResult(toks, n, n.cur + |B|, st.frames, end, base, Faults, k, names);
      case Runs => SameResult(toks, n, n.cur + |B|, st.frames, end, base, Runs, k, names);
      }
      assert Simulates(toks, n, end, base, r, k, names);
      AfterStep(toks, st, n, end, base, r, k, k, names);
    }
  }

  lemma {:induction false} RepeatAgain(c: Stmt, nl: bool, toks: seq<Token>, st: St, u: St, base: seq<Frame>,
                                       t: Sto, s: Sto, k: nat, names: set<string>)
    requires k > 0 && InRepeat(c, nl, toks, st, base, s, names) && BlockMeaning(c.body, s, k) == Ends(t)
    requires Valid(toks, u) && u.cur == st.cur + 1 + |BlockTokens(c.body)| && u.frames == st.frames
    requires Match(u, t, names) && SameNames(st.vars, u.vars)
    ensures Simulates(toks, u, RepeatEnd(c, st.cur), base, RepeatMeaning(c.body, c.until, s, k), k, names)
    decreases k, c.body, 5
  {
    hide Match, Simulates, BlockOk, BlockTokens, Step, BlockMeaning, Value, BasicExpr.Print, ExprOk, RepeatMeaning, RepeatEnd;
    var end := RepeatEnd(c, st.cur);
    UntilStep(c, nl, toks, st, u, base, s, t, names);
    RepeatCases(c.body, c.until, s, k);
    var w := Step(toks, u);
    var r := RepeatMeaning(c.body, c.until, s, k);
    if Value(c.until, t.store).Some? && !IsTrue(Value(c.until, t.store).value) {
      RepeatLoop(c, nl, toks, w, base, t, k - 1, names);
      AfterStep(toks, u, w, end, base, r, k - 1, k, names);
    } else {
      InOneStep(toks, u, end, base, r, k, names);
    }
  }

  // ---- whole programs ----

  /** The state in which the interpreter starts a program. */
  function Start(): St { St(0, [], [], "", true, true) }

  function ProgramTokens(b: Block): seq<Token> { BlockTokens(b) + [Eof] }

  lemma {:induction false} StartMatches(names: set<string>)
    requires NamesFit(names)
    ensures Match(Start(), Sto(map[], ""), names)
  {
  }

  /** For every well-formed program and every loop fuel: if its meaning ends, the machine
      stops at the end of the program with that store and output and no loop frame left;
      if its meaning faults, so does the machine; and if the meaning is still running, the
      machine is still running after as many rounds. */
  lemma {:induction false} ProgramRuns(b: Block, k: nat, names: set<string>)
    requires NamesFit(names) && BlockOk(b, names, MAX_FRAMES)
    ensures Simulates(ProgramTokens(b), Start(), |BlockTokens(b)|, [], BlockMeaning(b, Sto(map[], ""), k), k, names)
  {
    hide BlockOk, NamesFit, BlockTokens, Match, Simulates;
    StartMatches(names);
    BlockRuns(b, ProgramTokens(b), Start(), Sto(map[], ""), k, names);
  }

  /** The machine stops only with the program's meaning: whatever state it halts in after
      n rounds is the one the meaning, given fuel n + 1, ends or faults with. */
  lemma {:induction false} HaltsWithMeaning(b: Block, n: nat, names: set<string>)
    requires NamesFit(names) && BlockOk(b, names, MAX_FRAMES)
    requires Valid(ProgramTokens(b), Start()) && Halted(ProgramTokens(b), Run(ProgramTokens(b), Start(), n))
    ensures var t := Run(ProgramTokens(b), Start(), n);
            match BlockMeaning(b, Sto(map[], ""), n + 1)
            case Ends(s) => t.cur == |BlockTokens(b)| && t.frames == [] && Match(t, s, names)
            case Faults => !t.ok
            case Runs => false
  {
    hide BlockOk, NamesFit, BlockTokens, Match, BlockMeaning, Step;
    var toks := ProgramTokens(b);
    ProgramRuns(b, n + 1, names);
    match BlockMeaning(b, Sto(map[], ""), n + 1)
    case Ends(s) =>
      var m :| Arrives(toks, Start(), m, |BlockTokens(b)|, [], s, names);
      assert toks[|BlockTokens(b)|] == Eof;
      SameHalt(toks, Start(), m, n);
    case Faults =>
      var m :| !Run(toks, Start(), m).ok;
      SameHalt(toks, Start(), m, n);
    case Runs =>
      var m :| m >= n + 1 && !Halted(toks, Run(toks, Start(), m));
      RunAdd(toks, Start(), n, m - n);
      HaltedStays(toks, Run(toks, Start(), n), m - n);
  }

  /** A machine halts in one state only. */
  lemma {:induction false} SameHalt(toks: seq<Token>, st: St, m: nat, n: nat)
    requires Valid(toks, st) && Halted(toks, Run(toks, st, m)) && Halted(toks, Run(toks, st, n))
    ensures Run(toks, st, m) == Run(toks, st, n)
  {
    hide Run, Halted;
    if m <= n {
      RunAdd(toks, st, m, n - m);
      HaltedStays(toks, Run(toks, st, m), n - m);
    } else {
      RunAdd(toks, st, n, m - n);
      HaltedStays(toks, Run(toks, st, n), m - n);
    }
  }
}
