/**
 Numbers as text, told by powers of ten: what digits, fractions and exponents stand for.
 */
module NumberLaws {
  import opened Common
  import opened Numbers
  import opened NumberLoops
  import opened OperatorLaws

  /** An exponent of 12 or more counts as 12. */
  function Exponent(e: nat): nat { if e < 12 then e else 12 }

  lemma {:induction false} CapOfDecimal(e: nat)
    ensures e < 1000 ==> CapExp(Decimal(e), 0) == e
    ensures e >= 100 ==> CapExp(Decimal(e), 0) >= 100
  {
    if e < 10 {
      OneCap(e);
    } else {
      CapOfDecimal(e / 10);
      CapExpAppend(Decimal(e / 10), Digit(e % 10), 0);
    }
  }

  lemma {:induction false} OneCap(d: nat)
    requires d < 10
    ensures CapExp(Decimal(d), 0) == d
  {
    assert Decimal(d)[1..] == [];
  }

  lemma {:induction false} GrowIs(j: nat, e: nat)
    requires j <= 12
    ensures GrowScale(1_000_000 * Pow10(j), e) == 1_000_000 * Pow10(if j + e < 12 then j + e else 12)
    decreases e
  {
    Tens();
    if e > 0 && j < 12 {
      PowRises(j);
      TenTimes(1_000_000, Pow10(j));
      GrowIs(j + 1, e - 1);
    }
  }

  lemma {:induction false} Tens()
    ensures Pow10(0) == 1 && Pow10(11) == 100_000_000_000 && Pow10(12) == 1_000_000_000_000
  {
    assert Pow10(1) == 10 && Pow10(2) == 100 && Pow10(3) == 1000 && Pow10(4) == 10_000 && Pow10(5) == 100_000 && Pow10(6) == 1_000_000;
    assert Pow10(7) == 10_000_000 && Pow10(8) == 100_000_000 && Pow10(9) == 1_000_000_000 && Pow10(10) == 10_000_000_000;
  }

  /** Up to 11 the power is small enough for one more factor of ten. */
  lemma {:induction false} PowRises(j: nat)
    requires j <= 11
    ensures 1_000_000 * Pow10(j) <= 900_000_000_000_000_000 && Pow10(j + 1) == 10 * Pow10(j)
  {
    Tens();
    PowMono(j, 11);
  }

  lemma {:induction false} PowMono(i: nat, j: nat)
    requires i <= j
    ensures Pow10(i) <= Pow10(j)
    decreases j - i
  {
    if i < j { PowMono(i, j - 1); }
  }

  /** A literal with an exponent: mantissa, E, a sign or none, digits. It is read as the
      mantissa times that power of ten, or divided by it and cut off. */
  lemma {:induction false} ExponentReads(src: string, i: nat, v: int, mark: char, sign: string, e: nat)
    requires 0 <= v <= I64_MAX && (mark == 'E' || mark == 'e') && (sign == "" || sign == "+" || sign == "-")
    requires Occurs(src, i, NumText(v) + ([mark] + sign + Decimal(e)))
    requires !IsDigit(CharAt(src, i + |NumText(v)| + 1 + |sign| + |Decimal(e)|))
    ensures var (r, end) := ParseLiteral(src, i);
            && end == i + |NumText(v)| + 1 + |sign| + |Decimal(e)|
            && (sign == "-" ==> Truncated(r, v, Pow10(Exponent(e))))
            && (sign != "-" ==> Held(r, v * Pow10(Exponent(e))))
            && (sign != "-" && Fits64(v * Pow10(Exponent(e))) ==> r == v * Pow10(Exponent(e)))
  {
    hide Decimal, NumText, ParseUnsigned, MantissaEnd, SkipDigits, CapExp, ApplyExponent, Held, Truncated, Pow10, ExponentDigits;
    ExponentStands(src, i, NumText(v), mark, sign, Decimal(e));
    MantissaReads(src, i, v);
    ExponentApplies(v, sign == "-", e);
  }

  /** Where the mark, the sign and the digits of an exponent stand. */
  lemma {:induction false} ExponentStands(src: string, i: nat, text: string, mark: char, sign: string, d: string)
    requires (mark == 'E' || mark == 'e') && (sign == "" || sign == "+" || sign == "-") && d != "" && AllDigits(d)
    requires Occurs(src, i, text + ([mark] + sign + d)) && !IsDigit(CharAt(src, i + |text| + 1 + |sign| + |d|))
    ensures var (b, c) := (i + |text|, i + |text| + 1 + |sign|);
            && Occurs(src, i, text) && c + |d| <= |src| && src[b] == mark && HasExponent(src, b) && ExponentDigits(src, b) == c
            && (src[b + 1] == '-' <==> sign == "-") && SkipDigits(src, c) == c + |d| && src[c..c + |d|] == d
  {
    hide SkipDigits;
    var tail := [mark] + sign + d;
    OccursSplit(src, i, text, tail);
    var b := i + |text|;
    assert src[b] == src[b..b + |tail|][0] == mark;
    var c := b + 1 + |sign|;
    assert sign != "" ==> src[b + 1] == src[b..b + |tail|][1] == sign[0];
    assert src[c..c + |d|] == src[b..b + |tail|][1 + |sign|..] == d;
    assert src[c] == src[c..c + |d|][0] == d[0];
    SkipRun(src, c, c + |d|);
    if sign == "" { NotSigned(src[b + 1]); }
  }

  lemma {:induction false} NotSigned(c: char)
    requires IsDigit(c)
    ensures !IsSign(c)
  {
  }

  /** The mantissa of such a literal. */
  lemma {:induction false} MantissaReads(src: string, i: nat, v: int)
    requires 0 <= v <= I64_MAX && Occurs(src, i, NumText(v))
    requires var c := CharAt(src, i + |NumText(v)|); !IsDigit(c) && c != '.'
    ensures ParseUnsigned(src, i) == v && MantissaEnd(src, i) == i + |NumText(v)|
  {
    hide NumText, ParseUnsigned, MantissaEnd;
    PlainText(v);
    UnsignedRoundTrip(src, i, v / SCALE, v % SCALE);
  }

  lemma {:induction false} PlainText(v: int)
    requires 0 <= v
    ensures NumText(v) == Decimal(v / SCALE) + FracText(v % SCALE)
  {
    hide Decimal, FracText;
  }

  lemma {:induction false} ExponentApplies(v: nat, neg: bool, e: nat)
    requires v <= I64_MAX
    ensures var r := ApplyExponent(v, neg, CapExp(Decimal(e), 0));
            var p := Pow10(Exponent(e));
            && (neg ==> Truncated(r, v, p)) && (!neg ==> Held(r, v * p)) && (!neg && Fits64(v * p) ==> r == v * p)
  {
    hide Decimal, CapExp, Held, Truncated, Pow10, TruncDiv, Wrap64;
    CapOfDecimal(e);
    Tens();
    var c := CapExp(Decimal(e), 0);
    assert Exponent(c) == Exponent(e);
    GrowIs(0, c);
    var p := Pow10(Exponent(e));
    if neg {
      TruncDivIs(v * SCALE, SCALE * p);
      var q := TruncDiv(v * SCALE, SCALE * p);
      Cancelled(q, v, p);
      SmallQuotient(q, v, p);
    } else {
      var q := TruncDiv(v * (SCALE * p), SCALE);
      TruncDivIs(v * (SCALE * p), SCALE);
      Exact(v, p);
      TruncatedUnique(q, v * p, v * (SCALE * p), SCALE);
      WrapHolds(v * p);
      if Fits64(v * p) { HeldFits(Wrap64(v * p), v * p); }
    }
  }

  /** A common factor of both sides of a quotient does not matter. */
  lemma {:induction false} Cancelled(q: int, v: nat, p: nat)
    requires p > 0 && Truncated(q, v * SCALE, SCALE * p)
    ensures Truncated(q, v, p)
  {
    assert Abs(q) * (SCALE * p) == SCALE * (Abs(q) * p);
    assert (Abs(q) + 1) * (SCALE * p) == SCALE * ((Abs(q) + 1) * p);
  }

  lemma {:induction false} SmallQuotient(q: int, v: nat, p: nat)
    requires p > 0 && v <= I64_MAX && Truncated(q, v, p)
    ensures Wrap64(q) == q
  {
    if Abs(q) > v { MulMono(v + 1, 1, Abs(q), p); }
  }

  lemma {:induction false} Exact(v: nat, p: nat)
    ensures Truncated(v * p, v * (SCALE * p), SCALE)
  {
    assert v * (SCALE * p) == SCALE * (v * p);
  }

  // ---- fractions and signs ----

  lemma {:induction false} FractionReads(s: string, i: nat, w: nat, g: nat, n: nat, more: string)
    requires n <= 6 && g < Pow10(n) && AllDigits(more) && (more != "" ==> n == 6) && w * SCALE + g * Pow10(6 - n) <= I64_MAX
    requires Occurs(s, i, Decimal(w) + ("." + Fixed(g, n) + more)) && !IsDigit(CharAt(s, i + |Decimal(w)| + 1 + n + |more|))
    ensures ParseUnsigned(s, i) == w * SCALE + g * Pow10(6 - n)
  {
    hide Decimal, Fixed, Horner, SkipDigits, FracValue, Pow10;
    FractionStands(s, i, Decimal(w), Fixed(g, n), more);
    DecimalValue(w);
    FixedFraction(g, n);
    SmallFraction(w, g, n);
  }

  /** Where the digits before and behind the point stand, and those that count. */
  lemma {:induction false} FractionStands(s: string, i: nat, whole: string, d: string, more: string)
    requires AllDigits(whole) && AllDigits(d) && AllDigits(more) && |d| <= 6 && (more != "" ==> |d| == 6)
    requires Occurs(s, i, whole + ("." + d + more)) && !IsDigit(CharAt(s, i + |whole| + 1 + |d| + |more|))
    ensures var dot := i + |whole|;
            && dot < |s| && s[dot] == '.' && SkipDigits(s, i) == dot && s[i..dot] == whole
            && SkipDigits(s, dot + 1) == dot + 1 + |d| + |more| && ParseFraction(s, dot + 1) == FracValue(d)
  {
    hide FracValue, SkipDigits;
    var tail := "." + d + more;
    var dot := i + |whole|;
    OccursSplit(s, i, whole, tail);
    var end := dot + |tail|;
    assert s[dot] == s[dot..end][0] == '.';
    assert s[dot + 1..end] == s[dot..end][1..] == d + more;
    assert s[dot + 1..dot + 1 + |d|] == s[dot + 1..end][..|d|] == d;
    SkipRun(s, i, dot);
    SkipRun(s, dot + 1, end);
  }

  lemma {:induction false} FixedFraction(g: nat, n: nat)
    requires n <= 6 && g < Pow10(n)
    ensures FracValue(Fixed(g, n)) == g * Pow10(6 - n)
  {
    hide Fixed, Horner;
    FixedValue(g, n);
    SmallPow10(n);
    if n > 0 {
      MulMono(g + 1, Pow10(6 - n), Pow10(n), Pow10(6 - n));
      FracQuotient(g, g * Pow10(6 - n), n);
    }
  }

  lemma {:induction false} SmallFraction(w: nat, g: nat, n: nat)
    requires n <= 6 && w * SCALE + g * Pow10(6 - n) <= I64_MAX
    ensures Wrap64(w * SCALE) == w * SCALE && w <= I64_MAX
    ensures Wrap64(w * SCALE + g * Pow10(6 - n)) == w * SCALE + g * Pow10(6 - n)
  {
  }

  /** A number with a point: the first six digits behind it count, each a tenth of the one
      before, any more are passed over, and reading ends where the digits do; a sign may stand in
      front. */
  lemma {:induction false} DecimalsRead(w: nat, g: nat, n: nat, more: string, rest: string)
    requires n <= 6 && g < Pow10(n) && AllDigits(more) && (more != "" ==> n == 6) && w * SCALE + g * Pow10(6 - n) <= I64_MAX
    requires rest == "" || !IsDigit(rest[0])
    ensures var s, v := Decimal(w) + ("." + Fixed(g, n) + more) + rest, w * 1_000_000 + g * Pow10(6 - n);
            ParseText(s) == v && ParseText("+" + s) == v && ParseText("-" + s) == -v
  {
    hide Decimal, Fixed, ParseUnsigned, Pow10;
    var text := Decimal(w) + ("." + Fixed(g, n) + more);
    var s := text + rest;
    assert s[0..0 + |text|] == text && CharAt(s, |text|) == CharAt(rest, 0);
    FractionReads(s, 0, w, g, n, more);
    assert s[0] == Decimal(w)[0];
    forall sign: char ensures var t := [sign] + s; t[1..1 + |text|] == text && CharAt(t, 1 + |text|) == CharAt(rest, 0) {
      assert ([sign] + s)[1..1 + |text|] == s[0..0 + |text|];
    }
    FractionReads("+" + s, 1, w, g, n, more);
    FractionReads("-" + s, 1, w, g, n, more);
    SmallFraction(w, g, n);
  }

  /** A one is a million parts, and the last digit of a fraction is one part. */
  lemma {:induction false} ScaleLaw()
    ensures NumText(1_000_000) == "1" && NumText(1) == "0.000001" && NumText(-2_500_000) == "-2.5"
  {
    hide Decimal, TrimZeros, Fixed, FracText;
    OneDigitText(0);
    OneDigitText(1);
    OneDigitText(2);
    Fractions();
    assert "1" + "" == "1" && "" + "1" == "1";
  }

  lemma {:induction false} Fractions()
    ensures FracText(0) == "" && FracText(1) == ".000001" && FracText(500_000) == ".5"
  {
    hide TrimZeros, Fixed;
    FixedOne();
    FixedHalf();
  }

  lemma {:induction false} OneDigitText(d: nat)
    requires d < 10
    ensures Decimal(d) == [Digit(d)]
  {
  }

  lemma {:induction false} FixedNext(f: nat, k: nat, d: nat)
    requires d < 10
    ensures Fixed(10 * f + d, k + 1) == Fixed(f, k) + [Digit(d)]
  {
  }

  lemma {:induction false} ZeroDropped(s: string)
    ensures TrimZeros(s + "0") == TrimZeros(s)
  {
    assert (s + "0")[..|s|] == s;
  }

  lemma {:induction false} FiveDigits()
    ensures Fixed(0, 5) == "00000" && Fixed(5, 1) == "5" && Fixed(0, 0) == ""
  {
    hide Digit;
    assert Fixed(0, 0) == "";
    FixedNext(0, 0, 0);
    FixedNext(0, 1, 0);
    FixedNext(0, 2, 0);
    FixedNext(0, 3, 0);
    FixedNext(0, 4, 0);
    FixedNext(0, 0, 5);
    DigitsAre();
  }

  lemma {:induction false} DigitsAre()
    ensures Digit(0) == '0' && Digit(1) == '1' && Digit(5) == '5'
  {
  }

  lemma {:induction false} FixedOne()
    ensures TrimZeros(Fixed(1, 6)) == "000001"
  {
    hide Fixed, Digit;
    FiveDigits();
    FixedNext(0, 5, 1);
    DigitsAre();
  }

  lemma {:induction false} FixedHalf()
    ensures TrimZeros(Fixed(500_000, 6)) == "5"
  {
    hide Fixed, Digit, TrimZeros;
    FiveDigits();
    DigitsAre();
    FixedNext(5, 1, 0);
    FixedNext(50, 2, 0);
    FixedNext(500, 3, 0);
    FixedNext(5000, 4, 0);
    FixedNext(50_000, 5, 0);
    ZeroDropped("5");
    ZeroDropped("50");
    ZeroDropped("500");
    ZeroDropped("5000");
    ZeroDropped("50000");
    FiveStays();
    assert "5" + [Digit(0)] == "5" + "0" == "50" && "50" + [Digit(0)] == "50" + "0" == "500";
    assert "500" + [Digit(0)] == "500" + "0" == "5000" && "5000" + [Digit(0)] == "5000" + "0" == "50000";
    assert "50000" + [Digit(0)] == "50000" + "0";
  }

  lemma {:induction false} FiveStays()
    ensures TrimZeros("5") == "5"
  {
  }
}
