/**
 What the operators of GridBASIC compute, told on integers alone: sums and differences,
 truncated products and quotients, remainders, truth values and powers. A number n stands
 for n / 10^6, and 64 bits wrap around.
 */
module OperatorLaws {
  import opened Common
  import opened Numbers
  import opened BasicEval
  import opened BasicExpr

  const TWO64: int := 0x1_0000_0000_0000_0000

  predicate Fits64(x: int) { -0x8000_0000_0000_0000 <= x < 0x8000_0000_0000_0000 }

  predicate Fits128(x: int) {
    -0x8000_0000_0000_0000_0000_0000_0000_0000 <= x < 0x8000_0000_0000_0000_0000_0000_0000_0000
  }

  /** r is x as 64 bits hold it. */
  ghost predicate Held(r: int, x: int) { Fits64(r) && exists k: int :: r == x + k * TWO64 }

  /** r is the quotient with its fraction dropped. */
  ghost predicate Truncated(r: int, num: int, den: int) {
    && Abs(r) * Abs(den) <= Abs(num) < (Abs(r) + 1) * Abs(den)
    && (r > 0 ==> (num > 0) == (den > 0))
    && (r < 0 ==> (num > 0) != (den > 0))
  }

  /** The value of an operator on two literals. */
  function On(op: BinOp, a: int, b: int): Option<int> { Value(Bin(op, Lit(a), Lit(b)), map[]) }

  lemma {:induction false} OnLiterals(op: BinOp, a: int, b: int)
    ensures On(op, a, b) == Apply(op, a, b)
  {
    hide Apply;
    LitValue(a);
    LitValue(b);
  }

  lemma {:induction false} LitValue(a: int)
    ensures Value(Lit(a), map[]) == Some(a)
  {
  }

  lemma {:induction false} PowLiterals(a: int, b: int)
    ensures Value(Pow(Lit(a), Lit(b)), map[]) == Power(a, b)
  {
    hide Power;
    LitValue(a);
    LitValue(b);
  }

  lemma {:induction false} SignedLiterals(a: int)
    ensures Value(Neg(Lit(a)), map[]) == Some(Wrap64(-a)) && Value(Pos(Lit(a)), map[]) == Some(a)
    ensures Value(Not(Lit(a)), map[]) == Some(Truth(a == 0))
  {
    hide Wrap64, Truth;
    LitValue(a);
  }

  lemma {:induction false} WrapHolds(x: int)
    ensures Held(Wrap64(x), x)
  {
    var y := x + 0x8000_0000_0000_0000;
    assert y == y / TWO64 * TWO64 + y % TWO64;
    assert Wrap64(x) == x + (-(y / TWO64)) * TWO64;
  }

  /** What fits is held as it is. */
  lemma {:induction false} HeldFits(r: int, x: int)
    requires Held(r, x) && Fits64(x)
    ensures r == x
  {
    var k :| r == x + k * TWO64;
  }

  lemma {:induction false} QuotientBounds(x: nat, y: nat)
    requires y > 0
    ensures x / y * y <= x < (x / y + 1) * y
  {
    assert x == x / y * y + x % y;
  }

  lemma {:induction false} FlipDivisor(x: nat, b: int)
    requires b < 0
    ensures x / b == -(x / (0 - b))
  {
    var q := x / (0 - b);
    QuotientBounds(x, 0 - b);
    var p := x / b;
    assert x == p * b + x % b && 0 <= x % b < 0 - b;
    if p > -q { MulMono(1, 0 - b, p + q, 0 - b); }
    if p < -q { MulMono(1, 0 - b, 0 - (p + q), 0 - b); }
  }

  lemma {:induction false} TruncDivIs(a: int, b: int)
    requires b != 0
    ensures Truncated(TruncDiv(a, b), a, b)
  {
    var x, y := Abs(a), Abs(b);
    QuotientBounds(x, y);
    if b < 0 { FlipDivisor(x, b); }
    assert TruncDiv(a, b) == if (a >= 0) == (b > 0) then x / y else -(x / y);
    NotNegative(x, y);
    if a == 0 { ZeroQuotient(y); }
  }

  lemma {:induction false} NotNegative(x: nat, y: nat)
    requires y > 0
    ensures x / y >= 0
  {
  }

  lemma {:induction false} ZeroQuotient(y: nat)
    requires y > 0
    ensures 0 / y == 0
  {
  }

  /** There is but one such quotient. */
  lemma {:induction false} TruncatedUnique(r: int, q: int, num: int, den: int)
    requires den != 0 && Truncated(r, num, den) && Truncated(q, num, den)
    ensures r == q
  {
    if Abs(r) < Abs(q) { MulMono(Abs(r) + 1, Abs(den), Abs(q), Abs(den)); }
    if Abs(q) < Abs(r) { MulMono(Abs(q) + 1, Abs(den), Abs(r), Abs(den)); }
  }

  // ---- sums and differences ----

  lemma {:induction false} SumLaw(a: int, b: int)
    ensures On(Add, a, b).Some? && Held(On(Add, a, b).value, a + b)
    ensures On(Sub, a, b).Some? && Held(On(Sub, a, b).value, a - b)
    ensures Value(Neg(Lit(a)), map[]).Some? && Held(Value(Neg(Lit(a)), map[]).value, -a)
    ensures Fits64(a + b) ==> On(Add, a, b) == Some(a + b)
    ensures Fits64(a - b) ==> On(Sub, a, b) == Some(a - b)
    ensures Fits64(-a) ==> Value(Neg(Lit(a)), map[]) == Some(-a)
  {
    hide Wrap64, Held, Value, On;
    OnLiterals(Add, a, b);
    OnLiterals(Sub, a, b);
    SignedLiterals(a);
    WrapHolds(a + b);
    WrapHolds(a - b);
    WrapHolds(-a);
    if Fits64(a + b) { HeldFits(Wrap64(a + b), a + b); }
    if Fits64(a - b) { HeldFits(Wrap64(a - b), a - b); }
    if Fits64(-a) { HeldFits(Wrap64(-a), -a); }
  }

  // ---- products and quotients ----

  lemma {:induction false} ProductLaw(a: int, b: int) returns (q: int)
    ensures Truncated(q, a * b, 1_000_000)
    ensures On(Mul, a, b).Some? && Held(On(Mul, a, b).value, q)
    ensures Fits64(q) ==> On(Mul, a, b) == Some(q)
  {
    hide Wrap64, Held, TruncDiv, Truncated, On;
    OnLiterals(Mul, a, b);
    q := TruncDiv(a * b, SCALE);
    TruncDivIs(a * b, SCALE);
    WrapHolds(q);
    if Fits64(q) { HeldFits(Wrap64(q), q); }
  }

  lemma {:induction false} QuotientLaw(a: int, b: int) returns (q: int)
    ensures b == 0 ==> On(Div, a, b) == Some(0)
    ensures b != 0 ==> Truncated(q, a * 1_000_000, b) && On(Div, a, b).Some? && Held(On(Div, a, b).value, q)
    ensures b != 0 && Fits64(q) ==> On(Div, a, b) == Some(q)
  {
    hide Wrap64, Held, TruncDiv, Truncated, On;
    OnLiterals(Div, a, b);
    q := 0;
    if b != 0 {
      q := TruncDiv(a * SCALE, b);
      TruncDivIs(a * SCALE, b);
      WrapHolds(q);
      if Fits64(q) { HeldFits(Wrap64(q), q); }
    }
  }

  /** MOD and DIV: quotient and remainder belong together, and the remainder has the sign of
      the dividend. The one division that overflows is a fault. */
  lemma {:induction false} RemainderLaw(a: int, b: int) returns (q: int, m: int)
    ensures b == 0 ==> On(Mod, a, b) == Some(0) == On(IDiv, a, b)
    ensures a == -0x8000_0000_0000_0000 && b == -1 ==> On(Mod, a, b) == None == On(IDiv, a, b)
    ensures b != 0 && !(a == -0x8000_0000_0000_0000 && b == -1) ==>
              && a == q * b + m && Abs(m) < Abs(b) && (m > 0 ==> a > 0) && (m < 0 ==> a < 0)
              && On(Mod, a, b) == Some(m)
              && On(IDiv, a, b).Some? && Held(On(IDiv, a, b).value, q * 1_000_000)
              && (Fits64(q * 1_000_000) ==> On(IDiv, a, b) == Some(q * 1_000_000))
  {
    hide Wrap64, Held, TruncDiv, Truncated, On;
    OnLiterals(Mod, a, b);
    OnLiterals(IDiv, a, b);
    q, m := 0, 0;
    if b != 0 {
      q := TruncDiv(a, b);
      m := a - q * b;
      TruncDivIs(a, b);
      RemainderBounds(q, a, b);
      WrapHolds(q * SCALE);
      if Fits64(q * SCALE) { HeldFits(Wrap64(q * SCALE), q * SCALE); }
    }
  }

  lemma {:induction false} RemainderBounds(q: int, a: int, b: int)
    requires b != 0 && Truncated(q, a, b)
    ensures var m := a - q * b; Abs(m) < Abs(b) && (m > 0 ==> a > 0) && (m < 0 ==> a < 0)
  {
    assert Abs(q) * Abs(b) == Abs(q * b);
    assert (Abs(q) + 1) * Abs(b) == Abs(q) * Abs(b) + Abs(b);
    if q * b > 0 { SignOfProduct(q, b); }
    if q * b < 0 { SignOfProduct(q, b); }
  }

  lemma {:induction false} SignOfProduct(q: int, b: int)
    ensures q * b > 0 ==> (q > 0 && b > 0) || (q < 0 && b < 0)
    ensures q * b < 0 ==> (q > 0 && b < 0) || (q < 0 && b > 0)
  {
  }

  // ---- truth ----

  function Yes(p: bool): Option<int> { Some(if p then 1_000_000 else 0) }

  /** Comparisons, AND, OR and NOT yield one or zero. */
  lemma {:induction false} TruthLaw(a: int, b: int)
    ensures On(Eq, a, b) == Yes(a == b) && On(Ne, a, b) == Yes(a != b)
    ensures On(Lt, a, b) == Yes(a < b) && On(Gt, a, b) == Yes(a > b)
    ensures On(Le, a, b) == Yes(a <= b) && On(Ge, a, b) == Yes(a >= b)
    ensures On(And, a, b) == Yes(a != 0 && b != 0) && On(Or, a, b) == Yes(a != 0 || b != 0)
    ensures Value(Not(Lit(a)), map[]) == Yes(a == 0) && Value(Pos(Lit(a)), map[]) == Some(a)
  {
    hide Value, On;
    SignedLiterals(a);
    OnLiterals(Eq, a, b);
    OnLiterals(Ne, a, b);
    OnLiterals(Lt, a, b);
    OnLiterals(Gt, a, b);
    OnLiterals(Le, a, b);
    OnLiterals(Ge, a, b);
    OnLiterals(And, a, b);
    OnLiterals(Or, a, b);
  }

  // ---- powers ----

  /** The powers of b one after another, each the truncated product of the last with b, as
      long as 128 bits hold the products. */
  ghost predicate Powers(p: seq<int>, b: int) {
    && |p| > 0 && p[0] == 1_000_000
    && forall i :: 0 <= i < |p| - 1 ==> Fits128(p[i] * b) && Truncated(p[i + 1], p[i] * b, 1_000_000)
  }

  lemma {:induction false} LoopAlong(p: seq<int>, b: int, i: nat)
    requires Powers(p, b) && i < |p|
    ensures PowLoop(p[i], b, |p| - 1 - i) == p[|p| - 1]
    decreases |p| - i
  {
    hide Truncated, TruncDiv, Wrap128;
    if i < |p| - 1 {
      WrapFits(p[i] * b);
      TruncDivIs(p[i] * b, SCALE);
      TruncatedUnique(p[i + 1], TruncDiv(p[i] * b, SCALE), p[i] * b, SCALE);
      LoopAlong(p, b, i + 1);
    }
  }

  lemma {:induction false} WrapFits(x: int)
    requires Fits128(x)
    ensures Wrap128(x) == x
  {
  }

  lemma {:induction false} CountFits(n: int)
    requires -0x8000_0000 < n < 0x8000_0000
    ensures Wrap32(n) == n && Wrap32(-n) == -n
  {
  }

  /** b ^ e: the fraction of e is dropped; a positive count n gives the n-th power, a
      negative one the truncated reciprocal, or a fault where the power has come to 0. */
  lemma {:induction false} PowerLaw(b: int, e: int, n: nat, p: seq<int>) returns (q: int)
    requires n < 0x8000_0000 && |p| == n + 1 && Powers(p, b)
    requires Truncated(n, e, 1_000_000) || Truncated(0 - n, e, 1_000_000)
    ensures var v := Value(Pow(Lit(b), Lit(e)), map[]);
            && (Truncated(n, e, 1_000_000) ==> v.Some? && Held(v.value, p[n]))
            && (n > 0 && Truncated(0 - n, e, 1_000_000) ==>
                  if p[n] == 0 then v == None
                  else Truncated(q, 1_000_000 * 1_000_000, p[n]) && v.Some? && Held(v.value, q))
  {
    hide Truncated, TruncDiv, Wrap64, Held, Wrap32, PowLoop, Value;
    PowLiterals(b, e);
    LoopAlong(p, b, 0);
    TruncDivIs(e, SCALE);
    CountFits(n);
        q := 0;
    if p[n] != 0 {
      q := TruncDiv(SCALE * SCALE, p[n]);
      TruncDivIs(SCALE * SCALE, p[n]);
      WrapHolds(q);
    }
    WrapHolds(p[n]);
    if n == 0 { NoRounds(SCALE, b); }
    if Truncated(n, e, SCALE) {
      TruncatedUnique(n, TruncDiv(e, SCALE), e, SCALE);
      HeldScale();
    } else {
      TruncatedUnique(0 - n, TruncDiv(e, SCALE), e, SCALE);
    }
    if n > 0 && Truncated(n, e, SCALE) && Truncated(0 - n, e, SCALE) { TruncatedUnique(n, 0 - n, e, SCALE); }
  }

  lemma {:induction false} NoRounds(r: int, b: int)
    ensures PowLoop(r, b, 0) == r
  {
  }

  lemma {:induction false} HeldScale()
    ensures Held(SCALE, SCALE)
  {
    assert SCALE == SCALE + 0 * TWO64;
  }

  /** The first power is the base itself. */
  lemma {:induction false} PowerOne(b: int)
    requires Fits64(b)
    ensures Value(Pow(Lit(b), Lit(1_000_000)), map[]) == Some(b)
  {
    var p := [1_000_000, b];
    assert Truncated(b, p[0] * b, 1_000_000);
    assert Truncated(1, 1_000_000, 1_000_000);
    var q := PowerLaw(b, 1_000_000, 1, p);
    HeldFits(Value(Pow(Lit(b), Lit(1_000_000)), map[]).value, b);
  }
}
