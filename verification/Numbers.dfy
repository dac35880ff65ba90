/**
 GridBASIC numbers: signed 64-bit fixed point with six decimal places, the
 printer `num_to_string` and the two readers `parse_str_to_num` and
 `parse_number`.
 */
module Numbers {
  import opened Common

  const SCALE: int := 1_000_000
  const I64_MIN: int := -0x8000_0000_0000_0000
  const I64_MAX: int := 0x7FFF_FFFF_FFFF_FFFF

  /** Two's-complement wrap-around to 64 bits. */
  function Wrap64(x: int): (r: int)
    ensures I64_MIN <= r <= I64_MAX
    ensures I64_MIN <= x <= I64_MAX ==> r == x
  {
    (x + 0x8000_0000_0000_0000) % 0x1_0000_0000_0000_0000 - 0x8000_0000_0000_0000
  }

  /** Division as C performs it: the quotient is truncated toward zero. */
  function TruncDiv(a: int, b: int): int
    requires b != 0
  {
    if a >= 0 then a / b else -((-a) / b)
  }

  function TruncMod(a: int, b: int): int
    requires b != 0
  {
    a - TruncDiv(a, b) * b
  }

  // ---- what a number's text is ----

  function Digit(d: nat): (c: char)
    requires d < 10
    ensures IsDigit(c) && DigitValue(c) == d
  {
    ('0' as int + d) as char
  }

  predicate IsDigit(c: char) { '0' <= c <= '9' }

  function DigitValue(c: char): nat
    requires IsDigit(c)
  {
    c as int - '0' as int
  }

  predicate AllDigits(s: string) { forall i :: 0 <= i < |s| ==> IsDigit(s[i]) }

  /** Decimal digits of n, most significant first, no leading zero. */
  function Decimal(n: nat): (s: string)
    ensures s != [] && AllDigits(s)
  {
    if n < 10 then [Digit(n)] else Decimal(n / 10) + [Digit(n % 10)]
  }

  /** The k low decimal digits of f, with leading zeros. */
  function Fixed(f: nat, k: nat): (s: string)
    ensures |s| == k && AllDigits(s)
  {
    if k == 0 then [] else Fixed(f / 10, k - 1) + [Digit(f % 10)]
  }

  function TrimZeros(s: string): (r: string)
    ensures r <= s
  {
    if s != [] && s[|s| - 1] == '0' then TrimZeros(s[..|s| - 1]) else s
  }

  function FracText(f: nat): string
  {
    if f == 0 then [] else "." + TrimZeros(Fixed(f, 6))
  }

  /** The text GridBASIC shows for the fixed-point number v. The least number has no
      positive counterpart in 64 bits, and of it only the sign is shown. */
  function NumText(v: int): string
  {
    if v == I64_MIN then "-"
    else (if v < 0 then "-" else "") + Decimal(Abs(v) / SCALE) + FracText(Abs(v) % SCALE)
  }

  // ---- reading text back ----

  /** Character i of a C string: past the end stands the terminator. */
  function CharAt(s: string, i: nat): char { if i < |s| then s[i] else '\0' }

  /** First index at or after i that holds no digit. */
  function SkipDigits(s: string, i: nat): (j: nat)
    requires i <= |s|
    ensures i <= j <= |s|
    ensures !IsDigit(CharAt(s, j))
    ensures forall k :: i <= k < j ==> IsDigit(s[k])
    decreases |s| - i
  {
    if i < |s| && IsDigit(s[i]) then SkipDigits(s, i + 1) else i
  }

  /** Reading digits with the accumulator held in 64 bits. */
  function Horner(d: string, acc: int): int
    requires AllDigits(d)
  {
    if d == [] then acc else Horner(d[1..], Wrap64(acc * 10 + DigitValue(d[0])))
  }

  function Pow10(k: nat): (p: nat)
    ensures p >= 1
  {
    if k == 0 then 1 else 10 * Pow10(k - 1)
  }

  /** The value six or fewer fraction digits contribute. */
  function FracValue(d: string): int
    requires AllDigits(d)
  {
    Wrap64(Horner(d, 0) * SCALE) / Pow10(|d|)
  }

  /** Whole digits, then optionally a point and at most six counted fraction digits. */
  function ParseUnsigned(s: string, start: nat): int
    requires start <= |s|
  {
    var dot := SkipDigits(s, start);
    var whole := Wrap64(Horner(s[start..dot], 0) * SCALE);
    if CharAt(s, dot) == '.' then Wrap64(whole + ParseFraction(s, dot + 1)) else whole
  }

  /** The fraction whose digits begin at i; digits after the sixth are passed over. */
  function ParseFraction(s: string, i: nat): int
    requires i <= |s|
  {
    FracValue(s[i..Min(SkipDigits(s, i), i + 6)])
  }

  /** `parse_str_to_num`: the leading number of a string. */
  function ParseText(s: string): int
  {
    if CharAt(s, 0) == '-' then Wrap64(-ParseUnsigned(s, 1))
    else if CharAt(s, 0) == '+' then ParseUnsigned(s, 1)
    else ParseUnsigned(s, 0)
  }

  // ---- facts about digit strings ----

  lemma {:induction false} HornerAppend(d: string, c: char, acc: int)
    requires AllDigits(d) && IsDigit(c)
    ensures Horner(d + [c], acc) == Wrap64(Horner(d, acc) * 10 + DigitValue(c))
  {
    if d == [] {
      assert ([] + [c])[1..] == [];
    } else {
      assert (d + [c])[1..] == d[1..] + [c];
      HornerAppend(d[1..], c, Wrap64(acc * 10 + DigitValue(d[0])));
    }
  }

  lemma {:induction false} DecimalValue(n: nat)
    requires n <= I64_MAX
    ensures Horner(Decimal(n), 0) == n
  {
    if n >= 10 {
      DecimalValue(n / 10);
      HornerAppend(Decimal(n / 10), Digit(n % 10), 0);
    } else {
      HornerAppend([], Digit(n), 0);
      assert [] + [Digit(n)] == Decimal(n);
    }
  }

  lemma {:induction false} FixedValue(f: nat, k: nat)
    requires f < Pow10(k) && k <= 6
    ensures Horner(Fixed(f, k), 0) == f
  {
    if k > 0 {
      FixedValue(f / 10, k - 1);
      HornerAppend(Fixed(f / 10, k - 1), Digit(f % 10), 0);
      SmallPow10(k);
    }
  }

  lemma {:induction false} SmallPow10(k: nat)
    requires k <= 6
    ensures Pow10(k) * Pow10(6 - k) == SCALE
    ensures k > 0 ==> Pow10(k) <= SCALE
  {
    assert Pow10(0) == 1 && Pow10(1) == 10 && Pow10(2) == 100 && Pow10(3) == 1000;
    assert Pow10(4) == 10_000 && Pow10(5) == 100_000 && Pow10(6) == SCALE;
  }

  /** Trimming zeros from a digit string divides its value by a power of ten, exactly. */
  lemma {:induction false} TrimZerosValue(d: string)
    requires AllDigits(d) && |d| <= 6 && 0 < Horner(d, 0) < Pow10(|d|)
    ensures |TrimZeros(d)| >= 1 && AllDigits(TrimZeros(d))
    ensures Horner(TrimZeros(d), 0) * Pow10(|d| - |TrimZeros(d)|) == Horner(d, 0)
  {
    if d != [] && d[|d| - 1] == '0' {
      var r := d[..|d| - 1];
      assert d == r + ['0'];
      HornerAppend(r, '0', 0);
      HornerBound(r);
      SmallPow10(|r|);
      assert Horner(d, 0) == 10 * Horner(r, 0);
      TrimZerosValue(r);
      var t := TrimZeros(r);
      assert t == TrimZeros(d);
      TenTimes(Horner(t, 0), Pow10(|r| - |t|));
    }
  }

  lemma {:induction false} TenTimes(a: int, b: int)
    ensures a * (10 * b) == 10 * (a * b)
  {
  }

  lemma {:induction false} HornerBound(d: string)
    requires AllDigits(d) && |d| <= 6
    ensures 0 <= Horner(d, 0) < Pow10(|d|)
  {
    if d != [] {
      var r := d[..|d| - 1];
      assert d == r + [d[|d| - 1]];
      HornerBound(r);
      HornerAppend(r, d[|d| - 1], 0);
      SmallPow10(|d|);
    }
  }

  /** Reading back the fraction text gives the fraction. */
  lemma {:induction false} FracRoundTrip(f: nat)
    requires 0 < f < SCALE
    ensures var d := TrimZeros(Fixed(f, 6)); 1 <= |d| <= 6 && AllDigits(d) && FracValue(d) == f
  {
    SmallPow10(6);
    FixedValue(f, 6);
    TrimZerosValue(Fixed(f, 6));
    var d := TrimZeros(Fixed(f, 6));
    HornerBound(d);
    FracQuotient(Horner(d, 0), f, |d|);
  }

  lemma {:induction false} FracQuotient(g: int, f: int, k: nat)
    requires 1 <= k <= 6 && 0 <= f < SCALE && 0 <= g < Pow10(k)
    requires g * Pow10(6 - k) == f
    ensures Wrap64(g * SCALE) / Pow10(k) == f
  {
    SmallPow10(6);
    assert Pow10(1) == 10 && Pow10(2) == 100 && Pow10(3) == 1000 && Pow10(4) == 10_000 && Pow10(5) == 100_000;
    if k == 1 {} else if k == 2 {} else if k == 3 {} else if k == 4 {} else if k == 5 {} else {}
  }

  /** A run of digits is skipped exactly when no digit follows it. */
  lemma {:induction false} SkipRun(s: string, i: nat, j: nat)
    requires i <= j <= |s| && AllDigits(s[i..j]) && !IsDigit(CharAt(s, j))
    ensures SkipDigits(s, i) == j
    decreases j - i
  {
    if i < j {
      assert IsDigit(s[i..j][0]);
      assert s[i + 1..j] == s[i..j][1..];
      SkipRun(s, i + 1, j);
    }
  }

  /** Where the parts of an unsigned text standing at i begin and end. */
  lemma {:induction false} TextParts(s: string, i: nat, w: nat, f: nat)
    requires f < SCALE && Occurs(s, i, Decimal(w) + FracText(f))
    requires var c := CharAt(s, i + |Decimal(w) + FracText(f)|); !IsDigit(c) && c != '.'
    ensures var dot, end := i + |Decimal(w)|, i + |Decimal(w) + FracText(f)|;
            && dot <= end <= |s| && SkipDigits(s, i) == dot && s[i..dot] == Decimal(w)
            && (f == 0 ==> end == dot)
            && (f != 0 ==> CharAt(s, dot) == '.' && dot < end && SkipDigits(s, dot + 1) == end
                           && s[dot + 1..end] == TrimZeros(Fixed(f, 6)))
  {
    var dot, end := i + |Decimal(w)|, i + |Decimal(w) + FracText(f)|;
    OccursSplit(s, i, Decimal(w), FracText(f));
    if f != 0 {
      assert s[dot] == s[dot..end][0];
      assert s[dot + 1..end] == s[dot..end][1..] == TrimZeros(Fixed(f, 6));
      SkipRun(s, dot + 1, end);
    }
    SkipRun(s, i, dot);
  }

  /** The unsigned text of a number below 2^63, standing at i, is read back exactly. */
  lemma {:induction false} UnsignedRoundTrip(s: string, i: nat, w: nat, f: nat)
    requires f < SCALE && w * SCALE + f <= I64_MAX && Occurs(s, i, Decimal(w) + FracText(f))
    requires var c := CharAt(s, i + |Decimal(w) + FracText(f)|); !IsDigit(c) && c != '.'
    ensures ParseUnsigned(s, i) == w * SCALE + f
    ensures MantissaEnd(s, i) == i + |Decimal(w) + FracText(f)|
  {
    hide Decimal, FracText, Fixed, TrimZeros, Horner, SkipDigits, ParseUnsigned, MantissaEnd, FracValue;
    TextParts(s, i, w, f);
    DecimalValue(w);
    if f != 0 { FracRoundTrip(f); }
    Assemble(s, i, i + |Decimal(w)|, i + |Decimal(w) + FracText(f)|, w, f);
  }

  lemma {:induction false} Assemble(s: string, i: nat, dot: nat, end: nat, w: nat, f: nat)
    requires i <= dot <= end <= |s| && SkipDigits(s, i) == dot && Horner(s[i..dot], 0) == w
    requires f == 0 ==> end == dot && CharAt(s, dot) != '.'
    requires f != 0 ==> CharAt(s, dot) == '.' && SkipDigits(s, dot + 1) == end <= dot + 7
                        && FracValue(s[dot + 1..end]) == f
    requires w * SCALE + f <= I64_MAX
    ensures ParseUnsigned(s, i) == w * SCALE + f && MantissaEnd(s, i) == end
  {
    if f != 0 {
      assert ParseFraction(s, dot + 1) == f;
    }
  }

  /** Printing and reading back is the identity on every 64-bit number but the least, which
      reads back as 0. */
  lemma {:induction false} PrintParse(v: int)
    requires I64_MIN <= v <= I64_MAX
    ensures ParseText(NumText(v)) == if v == I64_MIN then 0 else v
  {
    hide Decimal, FracText, ParseUnsigned, SkipDigits;
    var body := Decimal(Abs(v) / SCALE) + FracText(Abs(v) % SCALE);
    if v == I64_MIN {
      SignAlone();
    } else if v < 0 {
      assert NumText(v) == "-" + body;
      UnsignedRoundTrip(NumText(v), 1, Abs(v) / SCALE, Abs(v) % SCALE);
    } else {
      assert NumText(v) == body;
      assert body[0] == Decimal(Abs(v) / SCALE)[0];
      UnsignedRoundTrip(NumText(v), 0, Abs(v) / SCALE, Abs(v) % SCALE);
    }
  }

  lemma {:induction false} SignAlone()
    ensures ParseText("-") == 0
  {
    assert "-"[1..1] == [];
  }

  // ---- numeric literals in program text ----

  predicate IsExpMark(c: char) { c == 'E' || c == 'e' }

  predicate IsSign(c: char) { c == '+' || c == '-' }

  /** End of the digits and the optional point that open a literal at i. */
  function MantissaEnd(src: string, i: nat): (j: nat)
    requires i <= |src|
    ensures i <= j <= |src|
  {
    var a := SkipDigits(src, i);
    if CharAt(src, a) == '.' then SkipDigits(src, a + 1) else a
  }

  /** Where the exponent digits begin, if the mark at b opens an exponent. */
  function ExponentDigits(src: string, b: nat): (c: nat)
    requires b < |src|
    ensures b < c <= |src|
  {
    if IsSign(CharAt(src, b + 1)) then b + 2 else b + 1
  }

  predicate HasExponent(src: string, b: nat)
    requires b <= |src|
  {
    IsExpMark(CharAt(src, b)) && IsDigit(CharAt(src, ExponentDigits(src, b)))
  }

  /** The exponent, which stops growing once it reaches 100. */
  function CapExp(d: string, e: nat): nat
    requires AllDigits(d)
  {
    if d == [] then e else CapExp(d[1..], if e < 100 then e * 10 + DigitValue(d[0]) else e)
  }

  function GrowScale(m: int, e: nat): int
    decreases e
  {
    if e == 0 || m > 900_000_000_000_000_000 then m else GrowScale(m * 10, e - 1)
  }

  lemma {:induction false} GrowScalePositive(m: int, e: nat)
    requires m > 0
    ensures GrowScale(m, e) > 0
    decreases e
  {
    if e > 0 && m <= 900_000_000_000_000_000 { GrowScalePositive(m * 10, e - 1); }
  }

  function ApplyExponent(val: int, neg: bool, e: nat): int
  {
    GrowScalePositive(SCALE, e);
    var m := GrowScale(SCALE, e);
    Wrap64(if neg then TruncDiv(val * SCALE, m) else TruncDiv(val * m, SCALE))
  }

  /** `parse_number`: the value of the literal at i and the index just past it. */
  function ParseLiteral(src: string, i: nat): (r: (int, nat))
    requires i <= |src|
    ensures i <= r.1 <= |src|
  {
    var b := MantissaEnd(src, i);
    var val := ParseUnsigned(src, i);
    if HasExponent(src, b) then
      var c := ExponentDigits(src, b);
      var end := SkipDigits(src, c);
      (ApplyExponent(val, src[b + 1] == '-', CapExp(src[c..end], 0)), end)
    else (val, b)
  }

  /** `parse_number` reads the text of every non-negative number exactly, wherever it
      stands, as long as no character follows that would lengthen the literal. */
  lemma {:induction false} LiteralRoundTrip(src: string, i: nat, v: int)
    requires 0 <= v <= I64_MAX && Occurs(src, i, NumText(v))
    requires var c := CharAt(src, i + |NumText(v)|); !IsDigit(c) && c != '.' && !IsExpMark(c)
    ensures ParseLiteral(src, i) == (v, i + |NumText(v)|)
  {
    assert NumText(v) == Decimal(v / SCALE) + FracText(v % SCALE);
    UnsignedRoundTrip(src, i, v / SCALE, v % SCALE);
  }
}
