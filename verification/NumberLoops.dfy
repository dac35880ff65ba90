/**
 The loops of `num_to_string`, `parse_str_to_num` and `parse_number`, each proved
 to compute the text or value of module Numbers.
 */
module NumberLoops {
  import opened Common
  import opened Numbers

  /** The buffer holds s followed by the C string terminator. */
  ghost predicate HoldsText(a: array<char>, s: string)
    reads a
  {
    |s| < a.Length && a[..|s|] == s && a[|s|] == '\0'
  }

  lemma {:induction false} DecimalLength(n: nat, k: nat)
    requires n < Pow10(k) && k > 0
    ensures |Decimal(n)| <= k
  {
    if n >= 10 && k > 1 { DecimalLength(n / 10, k - 1); }
  }

  lemma {:induction false} WholeLength(n: nat)
    requires n <= I64_MAX / SCALE
    ensures |Decimal(n)| <= 13
  {
    SmallPow10(6);
    assert Pow10(7) == 10_000_000 && Pow10(8) == 100_000_000 && Pow10(9) == 1_000_000_000;
    assert Pow10(10) == 10_000_000_000 && Pow10(11) == 100_000_000_000 && Pow10(12) == 1_000_000_000_000;
    assert Pow10(13) == 10_000_000_000_000;
    DecimalLength(n, 13);
  }

  /** The digits of a whole part; a negative one, which only the least number has, yields
      none. */
  function WholeText(n: int): string { if n < 0 then [] else Decimal(n) }

  /** Digits of n, least significant first, left in tmp. */
  method WholeDigits(n: int, tmp: array<char>) returns (t: nat)
    requires n <= I64_MAX / SCALE && tmp.Length == 32
    modifies tmp
    ensures t <= 13 && Reverse(tmp[..t]) == WholeText(n)
  {
    if n >= 0 { WholeLength(n); }
    var whole := n;
    t := 0;
    if whole == 0 {
      tmp[0] := '0';
      t := 1;
      assert tmp[..1] == [] + ['0'];
      ReverseAppend([], '0');
    }
    while whole > 0
      invariant t <= 13 && whole <= n
      invariant n >= 0 ==> whole >= 0 && Decimal(n) == LeadingDigits(whole) + Reverse(tmp[..t])
      invariant n < 0 ==> t == 0
    {
      var c := Digit(whole % 10);
      ReverseAppend(tmp[..t], c);
      LeadingStep(whole, Reverse(tmp[..t]));
      tmp[t] := c;
      assert tmp[..t + 1] == tmp[..t] + [c];
      t, whole := t + 1, whole / 10;
    }
  }

  /** The digits still to be produced when `whole` is what is left of the number. */
  function LeadingDigits(whole: nat): string { if whole == 0 then [] else Decimal(whole) }

  lemma {:induction false} LeadingStep(whole: nat, rest: string)
    requires whole > 0
    ensures LeadingDigits(whole) + rest == LeadingDigits(whole / 10) + ([Digit(whole % 10)] + rest)
    ensures |LeadingDigits(whole)| > 0
  {
    assert LeadingDigits(whole) == LeadingDigits(whole / 10) + [Digit(whole % 10)];
  }

  /** The six fraction digits, least significant first. */
  method SixDigits(frac: nat, six: array<char>)
    requires six.Length == 8
    modifies six
    ensures Reverse(six[..6]) == Fixed(frac, 6)
  {
    hide Reverse, Digit;
    var f6 := frac;
    assert six[..0] == [] && Reverse<char>([]) == [] by { ReverseNone(); }
    for d := 0 to 6
      invariant 0 <= f6
      invariant Fixed(frac, 6) == Fixed(f6, 6 - d) + Reverse(six[..d])
    {
      var c := Digit(f6 % 10);
      ghost var was := six[..d];
      FixedLast(f6, 6 - d, Reverse(was));
      ReverseAppend(was, c);
      six[d] := c;
      assert six[..d + 1] == was + [c];
      f6 := f6 / 10;
    }
    assert Fixed(f6, 0) + Reverse(six[..6]) == Reverse(six[..6]);
  }

  lemma {:induction false} ReverseNone()
    ensures Reverse<char>([]) == []
  {
  }

  lemma {:induction false} FixedLast(f: nat, k: nat, rest: string)
    requires k > 0
    ensures Fixed(f, k) + rest == Fixed(f / 10, k - 1) + ([Digit(f % 10)] + rest)
  {
  }

  /** The first digit that is not zero, the least significant first. */
  method FractionDigits(frac: nat, six: array<char>) returns (lo: nat)
    requires 0 < frac < SCALE && six.Length == 8
    modifies six
    ensures lo <= 5 && "." + Reverse(six[lo..6]) == FracText(frac)
  {
    hide Reverse, Fixed, TrimZeros;
    SixDigits(frac, six);
    lo := 0;
    assert six[0..6] == six[..6];
    while lo < 6 && six[lo] == '0'
      invariant lo <= 6
      invariant TrimZeros(Fixed(frac, 6)) == TrimZeros(Reverse(six[lo..6]))
    {
      assert six[lo..6] == ['0'] + six[lo + 1..6];
      TrimReversed(six[lo + 1..6]);
      lo := lo + 1;
    }
    assert lo == 6 ==> six[lo..6] == [];
    NothingTrimmed();
    FracRoundTrip(frac);
    if lo >= 6 {
      assert false;  // an all-zero fraction is never printed
    }
    assert six[lo..6] == [six[lo]] + six[lo + 1..6];
    KeptReversed(six[lo], six[lo + 1..6]);
  }

  lemma {:induction false} NothingTrimmed()
    ensures TrimZeros(Reverse([])) == []
  {
  }

  lemma {:induction false} TrimReversed(s: string)
    ensures TrimZeros(Reverse(['0'] + s)) == TrimZeros(Reverse(s))
  {
    assert (['0'] + s)[1..] == s;
    assert Reverse(['0'] + s)[..|s|] == Reverse(s);
  }

  lemma {:induction false} KeptReversed(c: char, s: string)
    requires c != '0'
    ensures TrimZeros(Reverse([c] + s)) == Reverse([c] + s)
  {
    assert ([c] + s)[1..] == s;
  }

  /** A text cut off after n characters. */
  function Cut(s: string, n: nat): string { s[..Min(|s|, n)] }

  /** Write src[from..n) backwards behind the text already in the buffer, as far as it reaches. */
  method AppendReversed(src: array<char>, from: nat, n: nat, out: array<char>, p0: nat, ghost head: string)
    returns (p: nat)
    requires from <= n <= src.Length && p0 < out.Length && src != out
    requires out[..p0] == Cut(head, out.Length - 1)
    modifies out
    ensures p < out.Length && out[..p] == Cut(head + Reverse(src[from..n]), out.Length - 1)
  {
    hide Reverse, Cut;
    var t := n;
    p := p0;
    ghost var text := head + Reverse(src[from..n]);
    ghost var limit := out.Length - 1;
    assert text[..|head|] == head;
    CutLength(head, limit);
    while t > from && p < out.Length - 1
      invariant from <= t <= n && p < out.Length
      invariant out[..p] == Cut(text[..|head| + (n - t)], limit)
    {
      t := t - 1;
      ReverseAt(src[from..n], n - 1 - t);
      ghost var k := |head| + (n - 1 - t);
      assert text[k] == src[t];
      CutNext(text, k, limit);
      ghost var was := out[..p];
      out[p] := src[t];
      p := p + 1;
      assert out[..p] == was + [src[t]];
    }
    if t == from { assert text[..|head| + (n - t)] == text; }
    else { CutFull(text, |head| + (n - t), limit); }
  }

  lemma {:induction false} CutLength(s: string, n: nat)
    ensures |Cut(s, n)| == Min(|s|, n)
  {
  }

  /** One more character of a text that is not yet cut. */
  lemma {:induction false} CutNext(s: string, k: nat, n: nat)
    requires k < |s|
    ensures |Cut(s[..k], n)| == Min(k, n)
    ensures k < n ==> Cut(s[..k + 1], n) == Cut(s[..k], n) + [s[k]]
  {
  }

  lemma {:induction false} CutFull(s: string, k: nat, n: nat)
    requires k <= |s| && |Cut(s[..k], n)| == n
    ensures Cut(s[..k], n) == Cut(s, n)
  {
  }

  lemma {:induction false} ReverseAt<T>(s: seq<T>, k: nat)
    requires k < |s|
    ensures Reverse(s)[k] == s[|s| - 1 - k]
  {
    if k < |s| - 1 { ReverseAt(s[1..], k); }
  }

  /** `num_to_string`: the number's text, cut off where the buffer ends. */
  method NumToString(raw: int, out: array<char>)
    requires I64_MIN <= raw <= I64_MAX && out.Length > 0
    modifies out
    ensures HoldsText(out, Cut(NumText(raw), out.Length - 1))
  {
    hide Decimal, FracText;
    var neg := raw < 0;
    var a := if neg then Wrap64(-raw) else raw;
    ghost var sign := if neg then "-" else "";
    var p := 0;
    if neg && p < out.Length - 1 {
      out[0] := '-';
      p := 1;
    }
    assert out[..p] == Cut(sign, out.Length - 1);
    p := AppendWhole(TruncDiv(a, SCALE), out, p, sign);
    ghost var head := sign + WholeText(TruncDiv(a, SCALE));
    if TruncMod(a, SCALE) > 0 {
      p := AppendFraction(TruncMod(a, SCALE), out, p, head);
    }
    NumTextParts(raw, a);
    out[p] := '\0';
  }

  /** The parts that are appended make up the text. */
  lemma {:induction false} NumTextParts(raw: int, a: int)
    requires I64_MIN <= raw <= I64_MAX && a == if raw < 0 then Wrap64(-raw) else raw
    ensures TruncMod(a, SCALE) < SCALE && TruncDiv(a, SCALE) <= I64_MAX / SCALE
    ensures NumText(raw) == (if raw < 0 then "-" else "") + WholeText(TruncDiv(a, SCALE))
                            + if TruncMod(a, SCALE) > 0 then FracText(TruncMod(a, SCALE)) else []
  {
    hide Decimal;
    if raw == I64_MIN {
      LeastParts(a);
    } else {
      assert a == Abs(raw);
      TruncatedParts(a);
    }
  }

  lemma {:induction false} LeastParts(a: int)
    requires a == Wrap64(-I64_MIN)
    ensures TruncMod(a, SCALE) < 0 && TruncDiv(a, SCALE) < 0
  {
  }

  lemma {:induction false} TruncatedParts(a: nat)
    requires a <= I64_MAX
    ensures TruncDiv(a, SCALE) == a / SCALE && TruncMod(a, SCALE) == a % SCALE && a / SCALE <= I64_MAX / SCALE
  {
  }

  /** Every number's text fits the 32 characters a PRINT converts it in. */
  lemma {:induction false} TextFits(v: int)
    requires I64_MIN <= v <= I64_MAX
    ensures |NumText(v)| <= 21
  {
    if v > I64_MIN { WholeLength(Abs(v) / SCALE); }
  }

  method AppendWhole(w: int, out: array<char>, p0: nat, ghost head: string) returns (p: nat)
    requires w <= I64_MAX / SCALE && p0 < out.Length && out[..p0] == Cut(head, out.Length - 1)
    modifies out
    ensures p < out.Length && out[..p] == Cut(head + WholeText(w), out.Length - 1)
  {
    var tmp := new char[32];
    var t := WholeDigits(w, tmp);
    assert tmp[0..t] == tmp[..t];
    p := AppendReversed(tmp, 0, t, out, p0, head);
  }

  method AppendFraction(f: nat, out: array<char>, p0: nat, ghost head: string) returns (p: nat)
    requires 0 < f < SCALE && p0 < out.Length && out[..p0] == Cut(head, out.Length - 1)
    modifies out
    ensures p < out.Length && out[..p] == Cut(head + FracText(f), out.Length - 1)
  {
    hide Decimal, Fixed, FracText, TrimZeros, Reverse;
    p := AppendPoint(out, p0, head);
    var six := new char[8];
    var lo := FractionDigits(f, six);
    p := AppendReversed(six, lo, 6, out, p, head + ".");
    assert head + "." + Reverse(six[lo..6]) == head + ("." + Reverse(six[lo..6]));
  }

  method AppendPoint(out: array<char>, p0: nat, ghost head: string) returns (p: nat)
    requires p0 < out.Length && out[..p0] == Cut(head, out.Length - 1)
    modifies out
    ensures p < out.Length && out[..p] == Cut(head + ".", out.Length - 1)
  {
    p := p0;
    if p < out.Length - 1 {
      out[p] := '.';
      p := p + 1;
    }
  }

  /** Consume digits, at most `limit` of them, into a wrapping accumulator. */
  method ReadDigits(s: string, start: nat, limit: nat) returns (acc: int, i: nat)
    requires start <= |s|
    ensures i == Min(SkipDigits(s, start), start + limit)
    ensures acc == Horner(s[start..i], 0)
  {
    acc, i := 0, start;
    ghost var stop := SkipDigits(s, start);
    while IsDigit(CharAt(s, i)) && i - start < limit
      invariant start <= i <= |s| && i - start <= limit && i <= stop
      invariant SkipDigits(s, i) == stop
      invariant acc == Horner(s[start..i], 0)
      decreases |s| - i
    {
      HornerAppend(s[start..i], s[i], 0);
      assert s[start..i + 1] == s[start..i] + [s[i]];
      acc := Wrap64(acc * 10 + DigitValue(s[i]));
      i := i + 1;
    }
  }

  /** 10^k, built up as the fraction loops do. */
  method ScaleOf(k: nat) returns (div: nat)
    requires k <= 6
    ensures div == Pow10(k)
  {
    div := 1;
    for j := 0 to k
      invariant div == Pow10(j)
    {
      div := div * 10;
    }
  }

  /** Whole and fraction part of a number, shared by both readers. */
  method ReadUnsigned(s: string, start: nat) returns (val: int, dot: nat)
    requires start <= |s|
    ensures val == ParseUnsigned(s, start)
    ensures dot == SkipDigits(s, start)
  {
    var whole;
    whole, dot := ReadDigits(s, start, |s|);
    val := Wrap64(whole * SCALE);
    if CharAt(s, dot) == '.' {
      var frac, last := ReadDigits(s, dot + 1, 6);
      var div := ScaleOf(last - (dot + 1));
      val := Wrap64(val + Wrap64(frac * SCALE) / div);
    }
  }

  /** `parse_str_to_num` */
  method ParseStrToNum(s: string) returns (v: int)
    ensures v == ParseText(s)
  {
    var neg, start := false, 0;
    if CharAt(s, 0) == '-' {
      neg, start := true, 1;
    } else if CharAt(s, 0) == '+' {
      start := 1;
    }
    var dot;
    v, dot := ReadUnsigned(s, start);
    if neg {
      v := Wrap64(-v);
    }
  }

  lemma {:induction false} CapExpAppend(d: string, c: char, e: nat)
    requires AllDigits(d) && IsDigit(c)
    ensures CapExp(d + [c], e) == if CapExp(d, e) < 100 then CapExp(d, e) * 10 + DigitValue(c) else CapExp(d, e)
  {
    if d == [] {
      assert ([] + [c])[1..] == [];
    } else {
      assert (d + [c])[1..] == d[1..] + [c];
      CapExpAppend(d[1..], c, if e < 100 then e * 10 + DigitValue(d[0]) else e);
    }
  }

  /** The exponent of a literal whose mark stands at b: scale the value by it. */
  method ScaleByExponent(src: string, b: nat, val: int) returns (v: int, end: nat)
    requires b < |src| && HasExponent(src, b)
    ensures end == SkipDigits(src, ExponentDigits(src, b))
    ensures v == ApplyExponent(val, src[b + 1] == '-', CapExp(src[ExponentDigits(src, b)..end], 0))
  {
    var c := ExponentDigits(src, b);
    var e := 0;
    end := c;
    while IsDigit(CharAt(src, end))
      invariant c <= end <= |src| && SkipDigits(src, end) == SkipDigits(src, c)
      invariant AllDigits(src[c..end]) && e == CapExp(src[c..end], 0)
      decreases |src| - end
    {
      CapExpAppend(src[c..end], src[end], 0);
      assert src[c..end + 1] == src[c..end] + [src[end]];
      if e < 100 {
        e := e * 10 + DigitValue(src[end]);
      }
      end := end + 1;
    }
    var m, j := SCALE, 0;
    while j < e && m <= 900_000_000_000_000_000
      invariant j <= e && m > 0
      invariant GrowScale(m, e - j) == GrowScale(SCALE, e)
    {
      m, j := m * 10, j + 1;
    }
    v := Wrap64(if src[b + 1] == '-' then TruncDiv(val * SCALE, m) else TruncDiv(val * m, SCALE));
  }

  /** `parse_number` */
  method ParseNumber(src: string, i: nat) returns (v: int, end: nat)
    requires i <= |src|
    ensures (v, end) == ParseLiteral(src, i)
  {
    var dot;
    v, dot := ReadUnsigned(src, i);
    end := dot;
    if CharAt(src, end) == '.' {
      end := end + 1;
      while IsDigit(CharAt(src, end))
        invariant dot < end <= |src| && SkipDigits(src, end) == SkipDigits(src, dot + 1)
        decreases |src| - end
      {
        end := end + 1;
      }
    }
    if HasExponent(src, end) {
      v, end := ScaleByExponent(src, end, v);
    }
  }
}
