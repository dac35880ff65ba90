/**
 The fixed-point square root of GridBASIC: Newton's iteration on integers.
 */
module Sqrt {
  import opened Common
  import opened Numbers

  /** Integer square root. */
  function Isqrt(t: nat): (s: nat)
    ensures s * s <= t < (s + 1) * (s + 1)
  {
    if t == 0 then 0
    else
      var s := Isqrt(t - 1);
      if (s + 1) * (s + 1) <= t then s + 1 else s
  }

  /** The next estimate. */
  function Newton(t: nat, r: nat): (n: nat)
    requires r > 0
  {
    (r + t / r) / 2
  }

  lemma {:induction false} Quotient(t: nat, r: nat)
    requires r > 0
    ensures t / r * r <= t < (t / r + 1) * r
  {
  }

  /** Above the root the quotient lies at or below it. */
  lemma {:induction false} QuotientBelow(t: nat, s: nat, r: nat)
    requires s * s <= t < (s + 1) * (s + 1) && r > s
    ensures t / r <= s
  {
    var q := t / r;
    Quotient(t, r);
    if q > s { MulMono(s + 1, s + 1, q, r); }
  }

  /** The sum of r and the quotient is at least twice the root. */
  lemma {:induction false} MeanAbove(t: nat, s: nat, r: nat)
    requires s * s <= t && r > 0
    ensures r + t / r >= 2 * s
  {
    var q := t / r;
    Quotient(t, r);
    if r + q < 2 * s { ProductBound(q + 1, r, s); }
  }

  lemma {:induction false} ProductBound(a: nat, b: nat, s: nat)
    requires a + b <= 2 * s
    ensures a * b <= s * s
  {
    if a <= s { BelowMean(a, b, s); } else { BelowMean(b, a, s); }
  }

  lemma {:induction false} BelowMean(a: nat, b: nat, s: nat)
    requires a + b <= 2 * s && a <= s
    ensures a * b <= s * s && b * a <= s * s
  {
    var e := s - a;
    MulMono(a, b, a, s + e);
    assert a * (s + e) == s * s - e * e;
    assert e * e >= 0;
  }

  /** One round from s + g: the estimate stays at or above the root and the gap at least
      halves. */
  lemma {:induction false} GapHalves(t: nat, s: nat, r: nat)
    requires s * s <= t < (s + 1) * (s + 1) && s > 0 && r >= s
    ensures Newton(t, r) >= s
    ensures r > s ==> Newton(t, r) - s <= (r - s) / 2
    ensures r == s ==> Newton(t, r) <= s + 1
  {
    MeanAbove(t, s, r);
    if r > s {
      QuotientBelow(t, s, r);
    } else {
      Quotient(t, s);
      assert (s + 3) * s >= (s + 1) * (s + 1);
      if t / s > s + 2 { MulMono(s + 3, s, t / s, s); }
    }
  }

  /** When the loop's exit test holds the new estimate is the root or one above. */
  lemma {:induction false} ExitClose(t: nat, s: nat, r: nat)
    requires s * s <= t < (s + 1) * (s + 1) && s > 0 && r >= s && Abs(Newton(t, r) - r) < 2
    ensures s <= Newton(t, r) <= s + 1
  {
    GapHalves(t, s, r);
    if r > s {
      QuotientBelow(t, s, r);
    }
  }

  /** Within one of the root the exit test holds. */
  lemma {:induction false} CloseExits(t: nat, s: nat, r: nat)
    requires s * s <= t < (s + 1) * (s + 1) && s > 0 && s <= r <= s + 1
    ensures Abs(Newton(t, r) - r) < 2
  {
    GapHalves(t, s, r);
    if r == s + 1 {
      Quotient(t, r);
      assert (s - 1) * (s + 1) == s * s - 1;
      assert t / r >= s - 1;
    }
  }

  lemma {:induction false} RootRange(t: nat, s: nat)
    requires s * s <= t < (s + 1) * (s + 1) && 1_000_000 <= t < 0x8000_0000_0000_0000 * 1_000_000
    ensures 1000 <= s < 0x400_0000_0000
  {
    if s < 1000 { MulMono(s + 1, s + 1, 1000, 1000); }
    if s >= 0x400_0000_0000 { MulMono(0x400_0000_0000, 0x400_0000_0000, s, s); }
  }

  lemma {:induction false} Sixteen()
    ensures Pow2(4) == 16
  {
  }

  lemma {:induction false} Start60()
    ensures Pow2(60) == 0x1000_0000_0000_0000
  {
    hide Pow2;
    Sixteen();
    Pow2Sum(4, 4);
    Pow2Sum(8, 8);
    Pow2Sum(16, 16);
    Pow2Sum(32, 16);
    Pow2Sum(48, 8);
    Pow2Sum(56, 4);
  }

  /** The first estimate lies between the root and 2^60 above it. */
  lemma {:induction false} StartAbove(t: nat, s: nat)
    requires s * s <= t < (s + 1) * (s + 1) && 1000 <= s < 0x400_0000_0000
    ensures s <= Min(t, 0x1000_0000_0000_0000) && Within(Min(t, 0x1000_0000_0000_0000) - s, 0)
  {
    Start60();
    MulMono(s, 1, s, s);
  }

  /** `sqrt_local`: for every positive 64-bit x the loop ends by its exit test, within 61 of
      its 80 rounds, and yields the integer square root of x * 10^6 or one more. */
  method SqrtLocal(x: int) returns (result: int, rounds: nat)
    requires x < 0x8000_0000_0000_0000
    ensures x <= 0 ==> result == 0
    ensures x > 0 ==> (result == Isqrt(x * SCALE) || result == Isqrt(x * SCALE) + 1) && 0 < rounds <= 61
  {
    hide Newton, Isqrt, Pow2, Within;
    if x <= 0 { return 0, 0; }
    var target := x * SCALE;
    ghost var s := Isqrt(target);
    RootRange(target, s);
    StartAbove(target, s);
    var r := target;
    if r > 0x1000_0000_0000_0000 { r := 0x1000_0000_0000_0000; }
    rounds := 0;
    while rounds < 80
      invariant rounds <= 60 && r >= s && Within(r - s, rounds)
    {
      if r == 0 { r := 1; }
      var next := Newton(target, r);
      rounds := rounds + 1;
      GapHalves(target, s, r);
      if r - s <= 1 { CloseExits(target, s, r); }
      if (next >= r && next - r < 2) || (r >= next && r - next < 2) {
        ExitClose(target, s, r);
        return next, rounds;
      }
      GapBound(r - s, next - s, rounds - 1);
      r := next;
    }
    assert false;
    result := r;
  }

  /** A gap that has been halved k times since it was at most 2^60. */
  predicate Within(g: nat, k: nat) { k <= 60 && g * Pow2(k) <= Pow2(60) }

  /** The bookkeeping of the rounds: a gap above one leaves rounds to go. */
  lemma {:induction false} GapBound(g: nat, h: nat, k: nat)
    requires g >= 2 && h <= g / 2 && Within(g, k)
    ensures k < 60 && Within(h, k + 1)
  {
    hide Pow2;
    var p := Pow2(k);
    PowStep(k);
    if k == 60 { MulMono(2, p, g, p); }
    MulMono(2 * h, p, g, p);
    assert h * (2 * p) == 2 * h * p;
  }

  lemma {:induction false} PowStep(k: nat)
    ensures Pow2(k + 1) == 2 * Pow2(k)
  {
  }
}
