/**
 What the statements of GridBASIC do, told without their tests: how often a FOR loop runs and
 with which values, which branch an IF takes, when WHILE and REPEAT stop, and where PRINT
 puts its columns.
 */
module LoopLaws {
  import opened Common
  import opened Numbers
  import opened BasicEval
  import opened BasicExpr
  import opened BasicMachine
  import opened BasicProgram
  import opened OperatorLaws

  // ---- bodies that leave the control variable alone ----

  predicate SimpleSpares(s: Simple, x: string) { s.Let? ==> s.x != x }

  predicate BranchSpares(body: seq<Simple>, x: string) { forall i :: 0 <= i < |body| ==> SimpleSpares(body[i], x) }

  predicate ArmsSpare(arms: seq<Arm>, x: string) { forall i :: 0 <= i < |arms| ==> BranchSpares(arms[i].body, x) }

  predicate StmtSpares(c: Stmt, x: string) {
    match c
    case Do(d) => SimpleSpares(d, x)
    case If(arms, els) => ArmsSpare(arms, x) && BranchSpares(els, x)
    case For(y, _, _, _, _, body) => y != x && Spares(body, x)
    case While(_, _, body) => Spares(body, x)
    case Repeat(_, body, _) => Spares(body, x)
  }

  /** Nothing in the block assigns x. */
  predicate Spares(b: Block, x: string) {
    match b
    case Done => true
    case Then(c, _, rest) => StmtSpares(c, x) && Spares(rest, x)
  }

  /** If r ends, x is as it was in s. */
  predicate Keeps(r: Result, s: Sto, x: string) { r.Ends? ==> Get(r.sto.store, x) == Get(s.store, x) }

  lemma {:induction false} ItemsKeep(items: seq<Item>, s: Sto, col: nat, sep: bool, x: string)
    ensures Keeps(ItemsMeaning(items, s, col, sep), s, x)
    decreases |items|
  {
    hide NumText, Value, Blanks, NextTab;
    if items != [] {
      match items[0]
      case Semi => ItemsKeep(items[1..], s, col, true, x);
      case Comma => TabStop(col); ItemsKeep(items[1..], s.(out := s.out + Blanks(NextTab(col) - col)), NextTab(col), true, x);
      case Show(e) =>
        if Value(e, s.store).Some? {
          var v := Value(e, s.store).value;
          ItemsKeep(items[1..], s.(out := s.out + NumText(v)), col + |NumText(v)|, false, x);
        }
    }
  }

  lemma {:induction false} SimpleKeeps(d: Simple, s: Sto, x: string)
    requires SimpleSpares(d, x)
    ensures Keeps(SimpleMeaning(d, s), s, x)
  {
    hide ItemsMeaning, Value;
    if d.Print? { ItemsKeep(d.items, s, 0, false, x); }
  }

  lemma {:induction false} BranchKeeps(body: seq<Simple>, s: Sto, x: string)
    requires BranchSpares(body, x)
    ensures Keeps(BranchMeaning(body, s), s, x)
    decreases |body|
  {
    hide SimpleMeaning;
    if body != [] {
      SimpleKeeps(body[0], s, x);
      var r := SimpleMeaning(body[0], s);
      if r.Ends? { BranchKeeps(body[1..], r.sto, x); }
    }
  }

  lemma {:induction false} IfKeeps(arms: seq<Arm>, els: seq<Simple>, s: Sto, x: string)
    requires ArmsSpare(arms, x) && BranchSpares(els, x)
    ensures Keeps(IfMeaning(arms, els, s), s, x)
    decreases |arms|
  {
    hide BranchMeaning, BranchSpares, Value;
    if arms == [] {
      BranchKeeps(els, s, x);
    } else {
      BranchKeeps(arms[0].body, s, x);
      IfKeeps(arms[1..], els, s, x);
    }
  }

  lemma {:induction false} StmtKeeps(c: Stmt, s: Sto, k: nat, x: string)
    requires StmtSpares(c, x)
    ensures Keeps(StmtMeaning(c, s, k), s, x)
    decreases k, c, 0
  {
    hide SimpleMeaning, IfMeaning, ForMeaning, WhileMeaning, RepeatMeaning, Value, StepValue;
    match c
    case Do(d) => SimpleKeeps(d, s, x);
    case If(arms, els) => IfKeeps(arms, els, s, x);
    case For(y, start, limit, step, _, body) =>
      match (Value(start, s.store), Value(limit, s.store), StepValue(step, s.store)) {
        case (Some(a), Some(b), Some(d)) => ForKeeps(y, b, d, body, s.(store := s.store[y := a]), k, x);
        case _ =>
      }
    case While(cond, _, body) => WhileKeeps(cond, body, s, k, x);
    case Repeat(_, body, until) => RepeatKeeps(body, until, s, k, x);
  }

  lemma {:induction false} BlockKeeps(b: Block, s: Sto, k: nat, x: string)
    requires Spares(b, x)
    ensures Keeps(BlockMeaning(b, s, k), s, x)
    decreases k, b, 0
  {
    hide StmtMeaning;
    match b
    case Done =>
    case Then(c, _, rest) =>
      StmtKeeps(c, s, k, x);
      var r := StmtMeaning(c, s, k);
      if r.Ends? { BlockKeeps(rest, r.sto, k, x); }
  }

  lemma {:induction false} ForKeeps(y: string, limit: int, step: int, body: Block, s: Sto, k: nat, x: string)
    requires y != x && Spares(body, x)
    ensures Keeps(ForMeaning(y, limit, step, body, s, k), s, x)
    decreases k, body, 1
  {
    hide BlockMeaning, Continues, Wrap64;
    if k > 0 {
      BlockKeeps(body, s, k, x);
      var r := BlockMeaning(body, s, k);
      if r.Ends? {
        var u := r.sto.(store := r.sto.store[y := Wrap64(Get(r.sto.store, y) + step)]);
        ForKeeps(y, limit, step, body, u, k - 1, x);
      }
    }
  }

  lemma {:induction false} WhileKeeps(cond: Expr, body: Block, s: Sto, k: nat, x: string)
    requires Spares(body, x)
    ensures Keeps(WhileMeaning(cond, body, s, k), s, x)
    decreases k, body, 1
  {
    hide BlockMeaning, Value;
    if k > 0 {
      BlockKeeps(body, s, k, x);
      var r := BlockMeaning(body, s, k);
      if r.Ends? { WhileKeeps(cond, body, r.sto, k - 1, x); }
    }
  }

  lemma {:induction false} RepeatKeeps(body: Block, until: Expr, s: Sto, k: nat, x: string)
    requires Spares(body, x)
    ensures Keeps(RepeatMeaning(body, until, s, k), s, x)
    decreases k, body, 1
  {
    hide BlockMeaning, Value;
    if k > 0 {
      BlockKeeps(body, s, k, x);
      var r := BlockMeaning(body, s, k);
      if r.Ends? { RepeatKeeps(body, until, r.sto, k - 1, x); }
    }
  }

  // ---- how often FOR runs ----

  /** n rounds of a loop body, the control variable raised by d after each. */
  function Rounds(body: Block, x: string, d: int, s: Sto, n: nat, k: nat): Result
    requires n <= k
    decreases n
  {
    if n == 0 then Ends(s)
    else
      match BlockMeaning(body, s, k)
      case Ends(t) => Rounds(body, x, d, t.(store := t.store[x := Get(t.store, x) + d]), n - 1, k - 1)
      case r => r
  }

  /** How often the loop from a to b by steps of d runs: once, and once more for every step
      that does not pass b. */
  function Times(a: int, b: int, d: int): (n: nat)
    requires d != 0
  {
    1 + Max(0, if d > 0 then (b - a) / d else (a - b) / (0 - d))
  }

  /** Steps 1 to n - 1 do not pass the limit, and step n does. */
  lemma {:induction false} TimesExact(a: int, b: int, d: int, i: nat)
    requires d != 0 && i > 0
    ensures d > 0 ==> (a + i * d <= b <==> i < Times(a, b, d))
    ensures d < 0 ==> (a + i * d >= b <==> i < Times(a, b, d))
  {
    if d > 0 { Reaches(b - a, d, i); } else { Reaches(a - b, 0 - d, i); }
  }

  lemma {:induction false} Reaches(gap: int, d: nat, i: nat)
    requires d > 0 && i > 0
    ensures i * d <= gap <==> i <= Max(0, gap / d)
  {
    var q := gap / d;
    assert gap == q * d + gap % d;
    if i <= q { MulMono(i, d, q, d); }
    if i > q && gap >= 0 { MulMono(q + 1, d, i, d); }
    if gap < 0 { MulMono(1, 1, i, d); NegativeQuotient(gap, d); }
  }

  lemma {:induction false} NegativeQuotient(gap: int, d: nat)
    requires gap < 0 && d > 0
    ensures gap / d < 0
  {
    var q := gap / d;
    assert gap == q * d + gap % d && gap % d >= 0;
    if q >= 0 { MulMono(0, d, q, d); }
  }

  /** A literal FOR loop runs its body exactly that often. */
  lemma {:induction false} ForCounts(x: string, a: int, b: int, d: int, body: Block, s: Sto, k: nat)
    requires d != 0 && Spares(body, x) && Get(s.store, x) == a && Fits64(a) && Fits64(a + Times(a, b, d) * d)
    requires Times(a, b, d) <= k
    ensures ForMeaning(x, b, d, body, s, k) == Rounds(body, x, d, s, Times(a, b, d), k)
    decreases k
  {
    hide Spares, BlockMeaning, Wrap64, Times;
    var n := Times(a, b, d);
    TimesPositive(a, b, d);
    BlockKeeps(body, s, k, x);
    var r := BlockMeaning(body, s, k);
    TimesExact(a, b, d, 1);
    Between(a, n, d);
    StepHeld(a + d);
    if r.Ends? {
      var u := r.sto.(store := r.sto.store[x := a + d]);
      if n > 1 {
        OneLess(a, b, d);
        ForCounts(x, a + d, b, d, body, u, k - 1);
      } else {
        NoRoundsLeft(body, x, d, u, k - 1);
      }
    }
  }

  lemma {:induction false} NoRoundsLeft(body: Block, x: string, d: int, s: Sto, k: nat)
    ensures Rounds(body, x, d, s, 0, k) == Ends(s)
  {
  }

  lemma {:induction false} TimesPositive(a: int, b: int, d: int)
    requires d != 0
    ensures Times(a, b, d) >= 1
  {
  }

  lemma {:induction false} StepHeld(v: int)
    requires Fits64(v)
    ensures Wrap64(v) == v
  {
    hide Wrap64;
    WrapHolds(v);
    HeldFits(Wrap64(v), v);
  }

  lemma {:induction false} Between(a: int, n: nat, d: int)
    requires n >= 1 && Fits64(a) && Fits64(a + n * d)
    ensures Fits64(a + d)
  {
    if d >= 0 { MulMono(1, d, n, d); } else { MulMono(1, 0 - d, n, 0 - d); }
  }

  lemma {:induction false} OneLess(a: int, b: int, d: int)
    requires d != 0 && Times(a, b, d) > 1
    ensures Times(a + d, b, d) == Times(a, b, d) - 1
    ensures a + d + Times(a + d, b, d) * d == a + Times(a, b, d) * d
  {
    var gap, e := if d > 0 then b - a else a - b, if d > 0 then d else 0 - d;
    assert gap / e >= 1;
    QuotientBounds(gap, e);
    assert gap - e == (gap / e - 1) * e + gap % e;
    QuotientLess(gap, e);
  }

  lemma {:induction false} QuotientLess(gap: int, e: nat)
    requires e > 0 && gap >= e
    ensures (gap - e) / e == gap / e - 1
  {
    var p, q := (gap - e) / e, gap / e;
    QuotientBounds(gap - e, e);
    QuotientBounds(gap, e);
    if p < q - 1 { MulMono(p + 2, e, q, e); }
    if p > q - 1 { MulMono(q + 1, e, p + 1, e); }
  }

  /** On round i the control variable stands at a + i * d. */
  lemma {:induction false} RoundValue(body: Block, x: string, a: int, d: int, s: Sto, i: nat, k: nat)
    requires i <= k && Spares(body, x) && Get(s.store, x) == a && Rounds(body, x, d, s, i, k).Ends?
    ensures Get(Rounds(body, x, d, s, i, k).sto.store, x) == a + i * d
    decreases i
  {
    hide Spares, BlockMeaning;
    if i > 0 {
      BlockKeeps(body, s, k, x);
      var t := BlockMeaning(body, s, k).sto;
      RoundValue(body, x, a + d, d, t.(store := t.store[x := a + d]), i - 1, k - 1);
    }
  }

  /** And when the loop is over it has just passed the limit. */
  lemma {:induction false} ForEnds(x: string, a: int, b: int, d: int, body: Block, s: Sto, k: nat)
    requires d != 0 && Spares(body, x) && Get(s.store, x) == a && Fits64(a) && Fits64(a + Times(a, b, d) * d)
    requires Times(a, b, d) <= k && ForMeaning(x, b, d, body, s, k).Ends?
    ensures var v := Get(ForMeaning(x, b, d, body, s, k).sto.store, x);
            v == a + Times(a, b, d) * d && (d > 0 ==> v > b) && (d < 0 ==> v < b)
  {
    hide ForMeaning, Rounds, Spares, Times;
    TimesPositive(a, b, d);
    ForCounts(x, a, b, d, body, s, k);
    RoundValue(body, x, a, d, s, Times(a, b, d), k);
    TimesExact(a, b, d, Times(a, b, d));
  }

  /** A step of zero runs the body once when the start is past the limit, and for ever when
      it is not. */
  lemma {:induction false} ForZero(x: string, a: int, b: int, body: Block, s: Sto, k: nat)
    requires Spares(body, x) && Get(s.store, x) == a && Fits64(a)
    ensures a <= b ==> !ForMeaning(x, b, 0, body, s, k).Ends?
    ensures a > b && k > 0 ==> ForMeaning(x, b, 0, body, s, k) == Rounds(body, x, 0, s, 1, k)
    decreases k
  {
    hide Spares, BlockMeaning, Wrap64;
    if k > 0 {
      BlockKeeps(body, s, k, x);
      var r := BlockMeaning(body, s, k);
      StepHeld(a);
      if r.Ends? {
        var u := r.sto.(store := r.sto.store[x := a]);
        if a <= b { ForZero(x, a, b, body, u, k - 1); } else { NoRoundsLeft(body, x, 0, u, k - 1); }
      }
    }
  }

  /** The whole statement, its bounds given as numbers; without STEP it counts by ones. */
  lemma {:induction false} ForStatement(x: string, a: int, b: int, step: Option<int>, nl: bool, body: Block, s: Sto, k: nat)
    requires Spares(body, x) && Fits64(a)
    requires var d := if step.Some? then step.value else 1_000_000;
             d != 0 && Fits64(a + Times(a, b, d) * d) && Times(a, b, d) <= k
    ensures var d := if step.Some? then step.value else 1_000_000;
            StmtMeaning(For(x, Lit(a), Lit(b), if step.Some? then Some(Lit(step.value)) else None, nl, body), s, k)
            == Rounds(body, x, d, s.(store := s.store[x := a]), Times(a, b, d), k)
  {
    hide ForMeaning, Rounds, Spares, Value, Times;
    var d := if step.Some? then step.value else 1_000_000;
    Literal(a, s.store);
    Literal(b, s.store);
    if step.Some? { Literal(d, s.store); }
    ForCounts(x, a, b, d, body, s.(store := s.store[x := a]), k);
  }

  lemma {:induction false} Literal(a: int, s: Store)
    ensures Value(Lit(a), s) == Some(a)
  {
  }

  // ---- branches and the other loops ----

  /** Any value but zero counts as true: the first arm whose condition is not zero runs, and
      the ELSE part when all are. */
  lemma {:induction false} FirstTrueArm(arms: seq<Arm>, els: seq<Simple>, vs: seq<int>, i: nat, s: Sto)
    requires |vs| == |arms| && i <= |arms| && forall j :: 0 <= j < |arms| ==> arms[j].cond == Lit(vs[j])
    requires (forall j :: 0 <= j < i ==> vs[j] == 0) && (i < |vs| ==> vs[i] != 0)
    ensures IfMeaning(arms, els, s) == BranchMeaning(if i < |arms| then arms[i].body else els, s)
    decreases |arms|
  {
    hide BranchMeaning, Value;
    if arms != [] {
      Literal(vs[0], s.store);
      if i > 0 { FirstTrueArm(arms[1..], els, vs[1..], i - 1, s); }
    }
  }

  /** WHILE on zero does nothing, and on anything else it runs its body before it looks again;
      REPEAT runs its body first and stops on anything but zero. */
  lemma {:induction false} LoopTests(cond: Expr, body: Block, s: Sto, k: nat)
    requires k > 0
    ensures Value(cond, s.store) == Some(0) ==> WhileMeaning(cond, body, s, k) == Ends(s)
    ensures Value(cond, s.store).Some? && Value(cond, s.store) != Some(0) && BlockMeaning(body, s, k).Ends? ==>
              WhileMeaning(cond, body, s, k) == WhileMeaning(cond, body, BlockMeaning(body, s, k).sto, k - 1)
    ensures BlockMeaning(body, s, k).Ends? ==>
              var t := BlockMeaning(body, s, k).sto;
              && (Value(cond, t.store) == Some(0) ==> RepeatMeaning(body, cond, s, k) == RepeatMeaning(body, cond, t, k - 1))
              && (Value(cond, t.store).Some? && Value(cond, t.store) != Some(0) ==> RepeatMeaning(body, cond, s, k) == Ends(t))
  {
    hide BlockMeaning, Value;
  }

  // ---- PRINT ----

  lemma {:induction false} TabStop(col: nat)
    ensures NextTab(col) % 14 == 0 && col < NextTab(col) <= col + 14
  {
  }

  /** A comma fills up to the next column divisible by 14; a semicolon puts values side by
      side; a line that ends in a value ends the line. */
  lemma {:induction false} PrintColumns(a: int, b: int, s: Sto) returns (gap: nat)
    ensures 1 <= gap <= 14 && (|NumText(a)| + gap) % 14 == 0
    ensures SimpleMeaning(Print([Show(Lit(a)), Comma, Show(Lit(b))]), s)
            == Ends(s.(out := s.out + NumText(a) + seq(gap, _ => ' ') + NumText(b) + "\n"))
    ensures SimpleMeaning(Print([Show(Lit(a)), Semi, Show(Lit(b))]), s) == Ends(s.(out := s.out + NumText(a) + NumText(b) + "\n"))
  {
    hide NumText, Value, NextTab;
    Literal(a, s.store);
    Literal(b, s.store);
    var col := |NumText(a)|;
    TabStop(col);
    gap := NextTab(col) - col;
    var one := s.(out := s.out + NumText(a));
    var padded := one.(out := one.out + Blanks(gap));
    ShowLast(b, padded, NextTab(col));
    ShowLast(b, one, col);
    var rest := [Comma, Show(Lit(b))];
    assert rest[1..] == [Show(Lit(b))];
    assert ItemsMeaning(rest, one, col, false) == ItemsMeaning([Show(Lit(b))], padded, NextTab(col), true);
    assert [Show(Lit(a)), Comma, Show(Lit(b))][1..] == rest;
    var side := [Semi, Show(Lit(b))];
    assert side[1..] == [Show(Lit(b))];
    assert ItemsMeaning(side, one, col, false) == ItemsMeaning([Show(Lit(b))], one, col, true);
    assert [Show(Lit(a)), Semi, Show(Lit(b))][1..] == side;
  }

  lemma {:induction false} ShowLast(b: int, s: Sto, col: nat)
    ensures ItemsMeaning([Show(Lit(b))], s, col, true) == Ends(s.(out := s.out + NumText(b) + "\n"))
  {
    hide NumText, Value;
    Literal(b, s.store);
    assert [Show(Lit(b))][1..] == [];
  }

  /** A separator at the end keeps the line open; PRINT alone ends it. */
  lemma {:induction false} PrintEndings(a: int, s: Sto)
    ensures SimpleMeaning(Print([]), s) == Ends(s.(out := s.out + "\n"))
    ensures SimpleMeaning(Print([Show(Lit(a)), Semi]), s) == Ends(s.(out := s.out + NumText(a)))
  {
    hide NumText, Value;
    Literal(a, s.store);
    var one := s.(out := s.out + NumText(a));
    assert [Show(Lit(a)), Semi][1..] == [Semi] && [Semi][1..] == [];
    assert ItemsMeaning([Semi], one, |NumText(a)|, false) == ItemsMeaning([], one, |NumText(a)|, true);
  }

  // ---- an example ----

  /** FOR I = 1 TO 3: PRINT I: NEXT I prints 1, 2 and 3. */
  lemma {:induction false} OneTwoThree(s: Sto)
    ensures var body := Then(Do(Print([Show(Ref("I"))])), true, Done);
            var r := StmtMeaning(For("I", Lit(1_000_000), Lit(3_000_000), None, true, body), s, 3);
            r.Ends? && r.sto.out == s.out + "1\n" + "2\n" + "3\n" && Get(r.sto.store, "I") == 4_000_000
  {
    hide NumText, StmtMeaning, BlockMeaning, Rounds, Times;
    var body := Then(Do(Print([Show(Ref("I"))])), true, Done);
    assert Spares(body, "I");
    assert Times(1_000_000, 3_000_000, 1_000_000) == 3 by { ThreeTimes(); }
    ForStatement("I", 1_000_000, 3_000_000, None, true, body, s, 3);
    var s1 := s.(store := s.store["I" := 1_000_000]);
    ShowsOne(s1, 1, 3);
    var s2 := Sto(s1.store["I" := 2_000_000], s1.out + "1\n");
    ShowsOne(s2, 2, 2);
    var s3 := Sto(s2.store["I" := 3_000_000], s2.out + "2\n");
    ShowsOne(s3, 3, 1);
    var s4 := Sto(s3.store["I" := 4_000_000], s3.out + "3\n");
    assert [Digit(1)] + "\n" == "1\n" && [Digit(2)] + "\n" == "2\n" && [Digit(3)] + "\n" == "3\n";
    OneRound(body, s1, [Digit(1)] + "\n", 3, 3);
    OneRound(body, s2, [Digit(2)] + "\n", 2, 2);
    OneRound(body, s3, [Digit(3)] + "\n", 1, 1);
    NoRoundsLeft(body, "I", 1_000_000, s4, 0);
  }

  lemma {:induction false} OneRound(body: Block, s: Sto, text: string, n: nat, k: nat)
    requires 0 < n <= k && BlockMeaning(body, s, k) == Ends(s.(out := s.out + text))
    ensures Rounds(body, "I", 1_000_000, s, n, k)
            == Rounds(body, "I", 1_000_000, Sto(s.store["I" := Get(s.store, "I") + 1_000_000], s.out + text), n - 1, k - 1)
  {
    hide BlockMeaning;
  }

  lemma {:induction false} ThreeTimes()
    ensures Times(1_000_000, 3_000_000, 1_000_000) == 3
  {
  }

  lemma {:induction false} ShowsOne(s: Sto, n: nat, k: nat)
    requires n < 10 && "I" in s.store && s.store["I"] == n * 1_000_000
    ensures BlockMeaning(Then(Do(Print([Show(Ref("I"))])), true, Done), s, k) == Ends(s.(out := s.out + ([Digit(n)] + "\n")))
  {
    hide NumText;
    var items := [Show(Ref("I"))];
    assert items[1..] == [];
    OneDigit(n);
    var one := s.(out := s.out + NumText(n * 1_000_000));
    assert ItemsMeaning([], one, |NumText(n * 1_000_000)|, false) == Ends(one.(out := one.out + "\n"));
    assert Value(Ref("I"), s.store) == Some(n * 1_000_000);
    assert ItemsMeaning(items, s, 0, false) == Ends(one.(out := one.out + "\n"));
    assert StmtMeaning(Do(Print(items)), s, k) == Ends(one.(out := one.out + "\n"));
  }

  lemma {:induction false} OneDigit(n: nat)
    requires n < 10
    ensures NumText(n * 1_000_000) == [Digit(n)]
  {
    assert n * 1_000_000 / SCALE == n && n * 1_000_000 % SCALE == 0;
    assert Decimal(n) == [Digit(n)];
    assert "" + [Digit(n)] + [] == [Digit(n)];
  }
}
