/**
 The CRC register as a 32-bit machine word, and what a flipped bit has become after many
 more message bits: long runs of rounds are products of short ones.
 */
module CrcWords {
  import opened Common
  import opened Crc32

  const ONE: bv32 := 0x8000_0000

  /** Addition of polynomials. */
  function Plus(a: bv32, b: bv32): bv32 { a ^ b }

  function Plus4(a: bv32, b: bv32, c: bv32, d: bv32): bv32 { (a ^ b) ^ (c ^ d) }

  /** The polynomial when the lowest bit is set: a mask of 32 ones or none picks it. */
  function Fold(c: bv32): bv32 { 0xEDB8_8320 & (0 - (c & 1)) }

  /** One round on a machine word, without a branch. */
  function Turn(c: bv32): bv32 { (c >> 1) ^ Fold(c) }

  lemma {:induction false} FoldIs(c: bv32)
    ensures Fold(c) == if c & 1 == 0 then 0 else 0xEDB8_8320
  {
  }

  lemma {:induction false} TurnIs(c: bv32)
    ensures Turn(c) == Plus(c >> 1, Fold(c))
  {
    hide Plus, Fold;
    PlusIs(c >> 1, Fold(c));
  }

  function Jump(c: bv32, n: nat): bv32
    decreases n
  {
    if n == 0 then c else Jump(Turn(c), n - 1)
  }

  // ---- words and bits ----

  /** The n low bits of a word, the lowest first. */
  function LowBits(x: bv32, n: nat): (w: Bits)
    ensures |w| == n
    decreases n
  {
    if n == 0 then [] else [x & 1 != 0] + LowBits(x >> 1, n - 1)
  }

  function BitsOf(x: bv32): (w: Word) { LowBits(x, 32) }

  /** Nothing of x stands above its n low bits. */
  predicate Within(x: bv32, n: nat)
    decreases n
  {
    if n == 0 then x == 0 else Within(x >> 1, n - 1)
  }

  lemma {:induction false} Within8(x: bv32, n: nat)
    requires Within(x >> 8, n)
    ensures Within(x, n + 8)
  {
    ShiftTwice(x);
    Within4(x >> 4, n);
    Within4(x, n + 4);
  }

  lemma {:induction false} ShiftTwice(x: bv32)
    ensures (x >> 4) >> 4 == x >> 8 && (((x >> 1) >> 1) >> 1) >> 1 == x >> 4
  {
  }

  lemma {:induction false} Within4(x: bv32, n: nat)
    requires Within(x >> 4, n)
    ensures Within(x, n + 4)
  {
    ShiftTwice(x);
    assert Within(x >> 1 >> 1 >> 1, n + 1);
    assert Within(x >> 1 >> 1, n + 2);
    assert Within(x >> 1, n + 3);
  }

  lemma {:induction false} AllWithin(x: bv32)
    ensures Within(x, 32)
  {
    hide Within;
    NoneLeft(x);
    assert Within(0, 0) by { NoBits(); }
    Within8(x >> 8 >> 8 >> 8, 0);
    Within8(x >> 8 >> 8, 8);
    Within8(x >> 8, 16);
    Within8(x, 24);
  }

  lemma {:induction false} NoneLeft(x: bv32)
    ensures (((x >> 8) >> 8) >> 8) >> 8 == 0
  {
  }

  lemma {:induction false} NoBits()
    ensures Within(0, 0)
  {
  }

  function WordOf(b: Bits): bv32 {
    if b == [] then 0 else (if b[0] then 1 else 0) | (WordOf(b[1..]) << 1)
  }

  lemma {:induction false} WordOfBits(x: bv32, n: nat)
    requires Within(x, n)
    ensures WordOf(LowBits(x, n)) == x
    decreases n
  {
    if n > 0 {
      WordOfBits(x >> 1, n - 1);
      assert LowBits(x, n)[1..] == LowBits(x >> 1, n - 1);
      Rejoined(x);
    }
  }

  lemma {:induction false} Rejoined(x: bv32)
    ensures x == (if x & 1 != 0 then 1 else 0) | ((x >> 1) << 1)
  {
  }

  lemma {:induction false} BitsInjective(x: bv32, y: bv32)
    requires BitsOf(x) == BitsOf(y)
    ensures x == y
  {
    hide LowBits, WordOf, Within;
    AllWithin(x);
    AllWithin(y);
    WordOfBits(x, 32);
    WordOfBits(y, 32);
  }

  /** The n low bits of m are ones. */
  predicate LowOnes(m: bv32, n: nat)
    decreases n
  {
    n == 0 || (m & 1 == 1 && LowOnes(m >> 1, n - 1))
  }

  lemma {:induction false} MaskedBits(x: bv32, m: bv32, n: nat)
    requires LowOnes(m, n)
    ensures LowBits(x & m, n) == LowBits(x, n)
    decreases n
  {
    if n > 0 {
      MaskedShift(x, m);
      MaskedBits(x >> 1, m >> 1, n - 1);
    }
  }

  lemma {:induction false} MaskedShift(x: bv32, m: bv32)
    ensures (x & m) >> 1 == (x >> 1) & (m >> 1)
    ensures m & 1 == 1 ==> (x & m) & 1 == x & 1
  {
  }

  lemma {:induction false} FewerOnes(m: bv32, n: nat, k: nat)
    requires LowOnes(m, n) && k <= n
    ensures LowOnes(m, k)
    decreases n
  {
    if k > 0 { FewerOnes(m >> 1, n - 1, k - 1); }
  }

  lemma {:induction false} Ones4(m: bv32, n: nat)
    requires m & 15 == 15 && LowOnes(m >> 4, n)
    ensures LowOnes(m, n + 4)
  {
    ShiftTwice(m);
    FourOnes(m);
    assert LowOnes(m >> 1 >> 1 >> 1, n + 1);
    assert LowOnes(m >> 1 >> 1, n + 2);
    assert LowOnes(m >> 1, n + 3);
  }

  lemma {:induction false} FourOnes(m: bv32)
    requires m & 15 == 15
    ensures m & 1 == 1 && (m >> 1) & 1 == 1 && (m >> 1 >> 1) & 1 == 1 && (m >> 1 >> 1 >> 1) & 1 == 1
  {
  }

  lemma {:induction false} AllOnes()
    ensures LowOnes(0x7FFF_FFFF, 31)
  {
    hide LowOnes;
    ThreeOnes();
    Ones4(0x7F, 3);
    Ones4(0x7FF, 7);
    Ones4(0x7FFF, 11);
    Ones4(0x7_FFFF, 15);
    Ones4(0x7F_FFFF, 19);
    Ones4(0x7FF_FFFF, 23);
    Ones4(0x7FFF_FFFF, 27);
  }

  lemma {:induction false} ThreeOnes()
    ensures LowOnes(7, 3)
  {
    assert LowOnes(1, 1) && LowOnes(3, 2);
  }

  lemma {:induction false} BitsOfWord(b: Bits)
    requires |b| <= 32
    ensures LowBits(WordOf(b), |b|) == b
  {
    hide WordOf, LowBits, LowOnes;
    if b == [] {
      assert LowBits(WordOf(b), 0) == [];
    } else {
      BitsOfWord(b[1..]);
      WordOfParts(b);
      AllOnes();
      FewerOnes(0x7FFF_FFFF, 31, |b| - 1);
      MaskedBits(WordOf(b[1..]), 0x7FFF_FFFF, |b| - 1);
      LowBitsFirst(WordOf(b), |b|);
      assert b == [b[0]] + b[1..];
    }
  }

  lemma {:induction false} WordOfParts(b: Bits)
    requires b != []
    ensures (WordOf(b) & 1 != 0) == b[0] && WordOf(b) >> 1 == WordOf(b[1..]) & 0x7FFF_FFFF
  {
    hide WordOf;
    WordOfFirst(b);
    PushedBit(WordOf(b[1..]), b[0]);
  }

  lemma {:induction false} WordOfFirst(b: Bits)
    requires b != []
    ensures WordOf(b) == (if b[0] then 1 else 0) | (WordOf(b[1..]) << 1)
  {
  }

  lemma {:induction false} LowBitsFirst(x: bv32, n: nat)
    requires n > 0
    ensures LowBits(x, n) == [x & 1 != 0] + LowBits(x >> 1, n - 1)
  {
  }

  lemma {:induction false} PushedBit(x: bv32, b: bool)
    ensures var y := (if b then 1 else 0) | (x << 1);
            (y & 1 != 0) == b && y >> 1 == x & 0x7FFF_FFFF
  {
  }

  lemma {:induction false} PlusLowBits(x: bv32, y: bv32, n: nat)
    ensures LowBits(Plus(x, y), n) == Xor(LowBits(x, n), LowBits(y, n))
    decreases n
  {
    hide Plus;
    if n > 0 {
      PlusShift(x, y);
      PlusFirst(x, y);
      PlusLowBits(x >> 1, y >> 1, n - 1);
    }
  }

  lemma {:induction false} PlusIs(x: bv32, y: bv32)
    ensures Plus(x, y) == x ^ y
  {
  }

  // Facts about machine words alone.

  lemma {:induction false} XorShift(x: bv32, y: bv32)
    ensures (x ^ y) >> 1 == (x >> 1) ^ (y >> 1)
  {
  }

  lemma {:induction false} XorFirst(x: bv32, y: bv32)
    ensures ((x ^ y) & 1 != 0) == ((x & 1 != 0) != (y & 1 != 0))
  {
  }

  lemma {:induction false} PlusShift(x: bv32, y: bv32)
    ensures Plus(x, y) >> 1 == Plus(x >> 1, y >> 1)
  {
    hide Plus;
    PlusIs(x, y);
    PlusIs(x >> 1, y >> 1);
    XorShift(x, y);
  }

  lemma {:induction false} PlusFirst(x: bv32, y: bv32)
    ensures (Plus(x, y) & 1 != 0) == ((x & 1 != 0) != (y & 1 != 0))
  {
    hide Plus;
    PlusIs(x, y);
    XorFirst(x, y);
  }

  lemma {:induction false} ZeroAbove(x: bv32, n: nat)
    requires Within(x, n)
    ensures LowBits(x, n + 1) == LowBits(x, n) + [false]
    decreases n
  {
    if n == 0 {
      assert LowBits(0, 1) == [false];
    } else {
      ZeroAbove(x >> 1, n - 1);
    }
  }

  lemma {:induction false} ShiftBits(x: bv32)
    ensures BitsOf(x >> 1) == BitsOf(x)[1..] + [false]
  {
    AllWithin(x);
    ZeroAbove(x >> 1, 31);
  }

  lemma {:induction false} FoldBits(x: bv32)
    ensures BitsOf(Fold(x)) == if BitsOf(x)[0] then Poly() else Zeros(32)
  {
    hide LowBits, Poly, Fold;
    FoldIs(x);
    PolyBits();
    ZeroBits(32);
    FirstBit(x);
  }

  lemma {:induction false} FirstBit(x: bv32)
    ensures BitsOf(x)[0] == (x & 1 != 0)
  {
  }

  lemma {:induction false} ZeroBits(n: nat)
    ensures LowBits(0, n) == Zeros(n)
  {
    if n > 0 {
      ZeroBits(n - 1);
      assert [false] + Zeros(n - 1) == Zeros(n);
    }
  }

  lemma {:induction false} Four(x: bv32, v: nat, n: nat)
    requires (x & 1 != 0) == (v % 2 == 1) && ((x >> 1) & 1 != 0) == (v / 2 % 2 == 1)
    requires ((x >> 2) & 1 != 0) == (v / 4 % 2 == 1) && ((x >> 3) & 1 != 0) == (v / 8 % 2 == 1)
    requires LowBits(x >> 4, n) == ToBits(v / 16, n)
    ensures LowBits(x, n + 4) == ToBits(v, n + 4)
  {
    ShiftsOne(x);
    assert LowBits(x >> 3, n + 1) == ToBits(v / 8, n + 1);
    assert LowBits(x >> 2, n + 2) == ToBits(v / 4, n + 2);
    assert LowBits(x >> 1, n + 3) == ToBits(v / 2, n + 3);
  }

  lemma {:induction false} ShiftsOne(x: bv32)
    ensures (x >> 1) >> 1 == x >> 2 && (x >> 2) >> 1 == x >> 3 && (x >> 3) >> 1 == x >> 4
  {
  }

  lemma {:induction false} PolyBits()
    ensures BitsOf(0xEDB8_8320) == Poly()
  {
    hide LowBits, ToBits;
    assert LowBits(0, 0) == ToBits(0, 0) by { NoLowBits(); }
    Four(0xE, 0xE, 0);
    Four(0xED, 0xED, 4);
    Four(0xEDB, 0xEDB, 8);
    Four(0xEDB8, 0xEDB8, 12);
    Four(0xE_DB88, 0xE_DB88, 16);
    Four(0xED_B883, 0xED_B883, 20);
    Four(0xEDB_8832, 0xEDB_8832, 24);
    Four(0xEDB8_8320, 0xEDB8_8320, 28);
  }

  lemma {:induction false} NoLowBits()
    ensures LowBits(0, 0) == ToBits(0, 0)
  {
  }

  lemma {:induction false} TurnBits(x: bv32)
    ensures BitsOf(Turn(x)) == Round(BitsOf(x))
  {
    hide Poly, LowBits, Plus, Fold, Turn;
    TurnIs(x);
    ShiftBits(x);
    FoldBits(x);
    PlusLowBits(x >> 1, Fold(x), 32);
  }

  lemma {:induction false} JumpBits(x: bv32, n: nat)
    ensures BitsOf(Jump(x, n)) == Rounds(BitsOf(x), n)
    decreases n
  {
    hide BitsOf, Turn, Round;
    if n > 0 {
      TurnBits(x);
      JumpBits(Turn(x), n - 1);
    }
  }

  // ---- products ----

  function Turn4(c: bv32): bv32 { Turn(Turn(Turn(Turn(c)))) }

  function Turn8(c: bv32): bv32 { Turn4(Turn4(c)) }

  /** d when the highest bit of m is set. */
  function TopBit(m: bv32, d: bv32): bv32 { d & (0 - (m >> 31)) }

  /** The parts of a product that the four and the eight top bits of m make. */
  function TopNibble(m: bv32, d: bv32): bv32 {
    Plus4(TopBit(m, d), TopBit(m << 1, Turn(d)), TopBit(m << 2, Turn(Turn(d))), TopBit(m << 3, Turn(Turn(Turn(d)))))
  }

  function TopByte(m: bv32, d: bv32): bv32 { Plus(TopNibble(m, d), TopNibble(m << 4, Turn4(d))) }

  /** The product of two registers modulo the generator. */
  function Times(m: bv32, d: bv32): bv32 {
    Plus4(TopByte(m, d), TopByte(m << 8, Turn8(d)),
          TopByte(m << 16, Turn8(Turn8(d))), TopByte(m << 24, Turn8(Turn8(Turn8(d)))))
  }

  lemma {:induction false} Plus4Is(a: bv32, b: bv32, c: bv32, d: bv32)
    ensures Plus4(a, b, c, d) == Plus(Plus(a, b), Plus(c, d))
  {
    hide Plus;
    PlusIs(a, b);
    PlusIs(c, d);
    PlusIs(a ^ b, c ^ d);
  }

  lemma {:induction false} TurnPlus(a: bv32, b: bv32)
    ensures Turn(Plus(a, b)) == Plus(Turn(a), Turn(b))
  {
    hide Fold, Plus, Turn;
    TurnIs(a);
    TurnIs(b);
    TurnIs(Plus(a, b));
    PlusShift(a, b);
    FoldPlus(a, b);
    PlusSwap(a >> 1, b >> 1, Fold(a), Fold(b));
  }

  lemma {:induction false} FoldPlus(a: bv32, b: bv32)
    ensures Fold(Plus(a, b)) == Plus(Fold(a), Fold(b))
  {
    hide Plus;
    PlusIs(a, b);
    PlusIs(Fold(a), Fold(b));
    FoldXor(a, b);
  }

  lemma {:induction false} FoldXor(a: bv32, b: bv32)
    ensures 0xEDB8_8320 & (0 - ((a ^ b) & 1)) == (0xEDB8_8320 & (0 - (a & 1))) ^ (0xEDB8_8320 & (0 - (b & 1)))
  {
  }

  lemma {:induction false} PlusAssoc(a: bv32, b: bv32, c: bv32)
    ensures Plus(Plus(a, b), c) == Plus(a, Plus(b, c))
  {
    hide Plus;
    PlusIs(a, b);
    PlusIs(a ^ b, c);
    PlusIs(b, c);
    PlusIs(a, b ^ c);
  }

  lemma {:induction false} PlusComm(a: bv32, b: bv32)
    ensures Plus(a, b) == Plus(b, a)
  {
    hide Plus;
    PlusIs(a, b);
    PlusIs(b, a);
  }

  lemma {:induction false} PlusSwap(a: bv32, b: bv32, c: bv32, d: bv32)
    ensures Plus(Plus(a, b), Plus(c, d)) == Plus(Plus(a, c), Plus(b, d))
  {
    hide Plus;
    PlusAssoc(a, b, Plus(c, d));
    PlusAssoc(b, c, d);
    PlusComm(b, c);
    PlusAssoc(c, b, d);
    PlusAssoc(a, c, Plus(b, d));
  }

  lemma {:induction false} TopBitIs(m: bv32, d: bv32)
    ensures TopBit(m, d) == if m >> 31 == 0 then 0 else d
  {
    hide TopBit;
    if m >> 31 == 0 { TopBitClear(m, d); } else { TopBitSet(m, d); }
  }

  lemma {:induction false} TopBitClear(m: bv32, d: bv32)
    requires m >> 31 == 0
    ensures TopBit(m, d) == 0
  {
  }

  lemma {:induction false} TopBitSet(m: bv32, d: bv32)
    requires m >> 31 != 0
    ensures TopBit(m, d) == d
  {
    hide TopBit;
    OneBit(m);
    WholeMask(d);
    TopBitBy(m, d);
  }

  lemma {:induction false} OneBit(m: bv32)
    requires m >> 31 != 0
    ensures m >> 31 == 1
  {
  }

  lemma {:induction false} WholeMask(d: bv32)
    ensures d & (0 - 1) == d
  {
  }

  lemma {:induction false} TopBitBy(m: bv32, d: bv32)
    requires m >> 31 == 1
    ensures TopBit(m, d) == d & (0 - 1)
  {
  }

  lemma {:induction false} TurnTopBit(m: bv32, d: bv32)
    ensures Turn(TopBit(m, d)) == TopBit(m, Turn(d))
  {
    hide TopBit, Turn;
    TopBitIs(m, d);
    TopBitIs(m, Turn(d));
    TurnNone();
  }

  lemma {:induction false} TurnNone()
    ensures Turn(0) == 0
  {
  }

  lemma {:induction false} TurnPlus4(a: bv32, b: bv32, c: bv32, d: bv32)
    ensures Turn(Plus4(a, b, c, d)) == Plus4(Turn(a), Turn(b), Turn(c), Turn(d))
  {
    hide Turn, Plus, Plus4;
    Plus4Is(a, b, c, d);
    Plus4Is(Turn(a), Turn(b), Turn(c), Turn(d));
    TurnPlus(Plus(a, b), Plus(c, d));
    TurnPlus(a, b);
    TurnPlus(c, d);
  }

  lemma {:induction false} TurnTopNibble(m: bv32, d: bv32)
    ensures Turn(TopNibble(m, d)) == TopNibble(m, Turn(d))
  {
    hide Turn, TopBit, Plus4;
    var c1 := Turn(d); var c2 := Turn(c1); var c3 := Turn(c2);
    TurnPlus4(TopBit(m, d), TopBit(m << 1, c1), TopBit(m << 2, c2), TopBit(m << 3, c3));
    TurnTopBit(m, d);
    TurnTopBit(m << 1, c1);
    TurnTopBit(m << 2, c2);
    TurnTopBit(m << 3, c3);
  }

  lemma {:induction false} TurnTopByte(m: bv32, d: bv32)
    ensures Turn(TopByte(m, d)) == TopByte(m, Turn(d))
  {
    hide Turn, Turn4, TopNibble, Plus;
    Turn4Turn(d);
    TurnPlus(TopNibble(m, d), TopNibble(m << 4, Turn4(d)));
    TurnTopNibble(m, d);
    TurnTopNibble(m << 4, Turn4(d));
  }

  lemma {:induction false} Turn4Turn(d: bv32)
    ensures Turn4(Turn(d)) == Turn(Turn4(d))
  {
    hide Turn;
  }

  lemma {:induction false} Turn8Turn(d: bv32)
    ensures Turn8(Turn(d)) == Turn(Turn8(d))
  {
    hide Turn;
  }

  lemma {:induction false} TurnTimes(m: bv32, d: bv32)
    ensures Turn(Times(m, d)) == Times(m, Turn(d))
  {
    hide Turn, Turn8, TopByte, Plus4;
    var d1 := Turn8(d); var d2 := Turn8(d1); var d3 := Turn8(d2);
    TurnPlus4(TopByte(m, d), TopByte(m << 8, d1), TopByte(m << 16, d2), TopByte(m << 24, d3));
    Turn8Turn(d);
    Turn8Turn(d1);
    Turn8Turn(d2);
    TurnTopByte(m, d);
    TurnTopByte(m << 8, d1);
    TurnTopByte(m << 16, d2);
    TurnTopByte(m << 24, d3);
  }

  lemma {:induction false} JumpTimes(m: bv32, d: bv32, n: nat)
    ensures Jump(Times(m, d), n) == Times(m, Jump(d, n))
    decreases n
  {
    hide Turn, Times;
    if n > 0 {
      TurnTimes(m, d);
      JumpTimes(m, Turn(d), n - 1);
    }
  }

  lemma {:induction false} One0(m: bv32)
    ensures TopByte(m, ONE) == m & 0xFF00_0000
  {
  }

  lemma {:induction false} One1(m: bv32)
    ensures TopByte(m << 8, 0x0080_0000) == m & 0x00FF_0000
  {
  }

  lemma {:induction false} One2(m: bv32)
    ensures TopByte(m << 16, 0x0000_8000) == m & 0x0000_FF00
  {
  }

  lemma {:induction false} One3(m: bv32)
    ensures TopByte(m << 24, 0x0000_0080) == m & 0x0000_00FF
  {
  }

  lemma {:induction false} TimesOne(m: bv32)
    ensures Times(m, ONE) == m
  {
    hide TopByte;
    assert Turn8(ONE) == 0x0080_0000;
    assert Turn8(0x0080_0000) == 0x0000_8000;
    assert Turn8(0x0000_8000) == 0x0000_0080;
    One0(m);
    One1(m);
    One2(m);
    One3(m);
  }

  /** Any number of rounds is one product. */
  lemma {:induction false} JumpIs(m: bv32, n: nat)
    ensures Jump(m, n) == Times(m, Jump(ONE, n))
  {
    hide Times, Turn, Jump;
    TimesOne(m);
    JumpTimes(m, ONE, n);
  }

  lemma {:induction false} JumpAdd(c: bv32, a: nat, b: nat)
    ensures Jump(c, a + b) == Jump(Jump(c, a), b)
    decreases a
  {
    hide Turn;
    if a > 0 { JumpAdd(Turn(c), a - 1, b); }
  }

  lemma {:induction false} Chain(a: nat, b: nat)
    ensures Jump(ONE, a + b) == Times(Jump(ONE, a), Jump(ONE, b))
  {
    hide Times, Turn, Jump;
    JumpAdd(ONE, a, b);
    JumpIs(Jump(ONE, a), b);
  }

  /** A one on top of the register has become x after n rounds. */
  ghost predicate Reaches(n: nat, x: bv32) { Jump(ONE, n) == x }

  lemma {:induction false} Further(a: nat, x: bv32, b: nat, y: bv32, n: nat, z: bv32)
    requires Reaches(a, x) && Reaches(b, y) && n == a + b && z == Times(x, y)
    ensures Reaches(n, z)
  {
    hide Jump, Times;
    Chain(a, b);
  }

  lemma {:induction false} Jump8(c: bv32)
    ensures Jump(c, 8) == Turn8(c)
  {
    hide Turn;
  }

  lemma {:induction false} Jump32()
    ensures Reaches(32, 0xEDB8_8320)
  {
    hide Jump;
    JumpAdd(ONE, 8, 24);
    JumpAdd(0x0080_0000, 8, 16);
    JumpAdd(0x0000_8000, 8, 8);
    Jump8(ONE);
    Jump8(0x0080_0000);
    Jump8(0x0000_8000);
    Jump8(0x0000_0080);
    assert Turn8(ONE) == 0x0080_0000;
    assert Turn8(0x0080_0000) == 0x0000_8000;
    assert Turn8(0x0000_8000) == 0x0000_0080;
    assert Turn8(0x0000_0080) == 0xEDB8_8320;
  }

  lemma {:induction false} Jump64()
    ensures Reaches(64, 0xB1E6_B092)
  {
    hide Reaches;
    Jump32();
    Further(32, 0xEDB8_8320, 32, 0xEDB8_8320, 64, 0xB1E6_B092);
  }

  lemma {:induction false} Jump96()
    ensures Reaches(96, 0x6655_004F)
  {
    hide Reaches;
    Jump32();
    Jump64();
    Further(64, 0xB1E6_B092, 32, 0xEDB8_8320, 96, 0x6655_004F);
  }

  lemma {:induction false} Jump192()
    ensures Reaches(192, 0x32B3_9DA3)
  {
    hide Reaches;
    Jump96();
    Further(96, 0x6655_004F, 96, 0x6655_004F, 192, 0x32B3_9DA3);
  }

  lemma {:induction false} Jump384()
    ensures Reaches(384, 0x1514_1C31)
  {
    hide Reaches;
    Jump192();
    Further(192, 0x32B3_9DA3, 192, 0x32B3_9DA3, 384, 0x1514_1C31);
  }

  lemma {:induction false} Jump480()
    ensures Reaches(480, 0xE372_0ACB)
  {
    hide Reaches;
    Jump96();
    Jump384();
    Further(384, 0x1514_1C31, 96, 0x6655_004F, 480, 0xE372_0ACB);
  }

  lemma {:induction false} Jump960()
    ensures Reaches(960, 0x00CC_3374)
  {
    hide Reaches;
    Jump480();
    Further(480, 0xE372_0ACB, 480, 0xE372_0ACB, 960, 0x00CC_3374);
  }

  lemma {:induction false} Jump1920()
    ensures Reaches(1920, 0x8FD2_CD3C)
  {
    hide Reaches;
    Jump960();
    Further(960, 0x00CC_3374, 960, 0x00CC_3374, 1920, 0x8FD2_CD3C);
  }

  lemma {:induction false} Jump2016()
    ensures Reaches(2016, 0x9916_8A18)
  {
    hide Reaches;
    Jump96();
    Jump1920();
    Further(1920, 0x8FD2_CD3C, 96, 0x6655_004F, 2016, 0x9916_8A18);
  }

  lemma {:induction false} Jump4032()
    ensures Reaches(4032, 0x72BD_F11E)
  {
    hide Reaches;
    Jump2016();
    Further(2016, 0x9916_8A18, 2016, 0x9916_8A18, 4032, 0x72BD_F11E);
  }

  lemma {:induction false} Jump8064()
    ensures Reaches(8064, 0xA566_4752)
  {
    hide Reaches;
    Jump4032();
    Further(4032, 0x72BD_F11E, 4032, 0x72BD_F11E, 8064, 0xA566_4752);
  }

  lemma {:induction false} Jump8096()
    ensures Reaches(8096, 0x81CA_C72A)
  {
    hide Reaches;
    Jump32();
    Jump8064();
    Further(8064, 0xA566_4752, 32, 0xEDB8_8320, 8096, 0x81CA_C72A);
  }

  // ---- differences that cancel ----

  const FAR: bv32 := 0x81CA_C72A   // a one on top of the register, 8096 rounds on
  const BACK: bv32 := 0xC6E6_F96E  // what leads to it in 8096 rounds

  /** 8096 rounds are a product with a constant. */
  lemma {:induction false} Far(x: bv32)
    ensures Jump(x, 8096) == Times(x, FAR)
  {
    hide Times, Jump;
    Jump8096();
    JumpIs(x, 8096);
  }

  lemma {:induction false} JumpInjective(x: bv32, y: bv32, n: nat)
    requires Jump(x, n) == Jump(y, n)
    ensures x == y
  {
    hide Jump, BitsOf, Rounds;
    JumpBits(x, n);
    JumpBits(y, n);
    RoundsInjective(BitsOf(x), BitsOf(y), n);
    BitsInjective(x, y);
  }

  /** And the way back is a product too. */
  lemma {:induction false} Back(x: bv32)
    ensures x == Times(Jump(x, 8096), BACK)
  {
    hide Times, Jump;
    var f := Jump(x, 8096);
    Far(BACK);
    BackFar();
    JumpTimes(f, BACK, 8096);
    TimesOne(f);
    JumpInjective(x, Times(f, BACK), 8096);
  }

  lemma {:induction false} BackFar()
    ensures Times(BACK, FAR) == ONE
  {
  }

  /** One byte whose effect misses the lowest eight bits of the register. */
  lemma {:induction false} MissesOne(x: bv32)
    requires x & 0xFFFF_FF00 == 0 && Times(x, FAR) & 0x0000_00FF == 0
    ensures x == 0 || x == 0x0000_00CF
  {
  }

  // The product with that constant, written out for two bytes.

  function Nibble3(x: bv32): bv32 {
    ((if x & 0x0000_8000 == 0 then 0 as bv32 else 0x6A6B_1AF1 as bv32) ^ (if x & 0x0000_4000 == 0 then 0 as bv32 else 0xD88D_0E58 as bv32))
    ^ ((if x & 0x0000_2000 == 0 then 0 as bv32 else 0x6C46_872C as bv32) ^ (if x & 0x0000_1000 == 0 then 0 as bv32 else 0x3623_4396 as bv32))
  }

  function Nibble2(x: bv32): bv32 {
    ((if x & 0x0000_0800 == 0 then 0 as bv32 else 0x1B11_A1CB as bv32) ^ (if x & 0x0000_0400 == 0 then 0 as bv32 else 0xE030_53C5 as bv32))
    ^ ((if x & 0x0000_0200 == 0 then 0 as bv32 else 0x9DA0_AAC2 as bv32) ^ (if x & 0x0000_0100 == 0 then 0 as bv32 else 0x4ED0_5561 as bv32))
  }

  function Nibble1(x: bv32): bv32 {
    ((if x & 0x0000_0080 == 0 then 0 as bv32 else 0xCAD0_A990 as bv32) ^ (if x & 0x0000_0040 == 0 then 0 as bv32 else 0x6568_54C8 as bv32))
    ^ ((if x & 0x0000_0020 == 0 then 0 as bv32 else 0x32B4_2A64 as bv32) ^ (if x & 0x0000_0010 == 0 then 0 as bv32 else 0x195A_1532 as bv32))
  }

  function Nibble0(x: bv32): bv32 {
    ((if x & 0x0000_0008 == 0 then 0 as bv32 else 0x0CAD_0A99 as bv32) ^ (if x & 0x0000_0004 == 0 then 0 as bv32 else 0xEBEE_066C as bv32))
    ^ ((if x & 0x0000_0002 == 0 then 0 as bv32 else 0x75F7_0336 as bv32) ^ (if x & 0x0000_0001 == 0 then 0 as bv32 else 0x3AFB_819B as bv32))
  }

  lemma {:induction false} NibbleMasks3(x: bv32)
    ensures (((x << 16) >> 31) == 0) == (x & 0x0000_8000 == 0)
    ensures ((((x << 16) << 1) >> 31) == 0) == (x & 0x0000_4000 == 0)
    ensures ((((x << 16) << 2) >> 31) == 0) == (x & 0x0000_2000 == 0)
    ensures ((((x << 16) << 3) >> 31) == 0) == (x & 0x0000_1000 == 0)
  {
  }

  lemma {:induction false} NibbleIs3(x: bv32)
    ensures TopNibble(x << 16, 0x6A6B_1AF1) == Nibble3(x)
  {
    hide Turn, TopBit;
    assert Turn(0x6A6B_1AF1) == 0xD88D_0E58 && Turn(0xD88D_0E58) == 0x6C46_872C && Turn(0x6C46_872C) == 0x3623_4396 by { NibbleTurns3(); }
    NibbleMasks3(x);
    TopBitIs(x << 16, 0x6A6B_1AF1);
    TopBitIs((x << 16) << 1, 0xD88D_0E58);
    TopBitIs((x << 16) << 2, 0x6C46_872C);
    TopBitIs((x << 16) << 3, 0x3623_4396);
  }

  lemma {:induction false} NibbleTurns3()
    ensures Turn(0x6A6B_1AF1) == 0xD88D_0E58 && Turn(0xD88D_0E58) == 0x6C46_872C && Turn(0x6C46_872C) == 0x3623_4396
  {
  }

  lemma {:induction false} NibbleMasks2(x: bv32)
    ensures ((((x << 16) << 4) >> 31) == 0) == (x & 0x0000_0800 == 0)
    ensures (((((x << 16) << 4) << 1) >> 31) == 0) == (x & 0x0000_0400 == 0)
    ensures (((((x << 16) << 4) << 2) >> 31) == 0) == (x & 0x0000_0200 == 0)
    ensures (((((x << 16) << 4) << 3) >> 31) == 0) == (x & 0x0000_0100 == 0)
  {
  }

  lemma {:induction false} NibbleIs2(x: bv32)
    ensures TopNibble((x << 16) << 4, 0x1B11_A1CB) == Nibble2(x)
  {
    hide Turn, TopBit;
    assert Turn(0x1B11_A1CB) == 0xE030_53C5 && Turn(0xE030_53C5) == 0x9DA0_AAC2 && Turn(0x9DA0_AAC2) == 0x4ED0_5561 by { NibbleTurns2(); }
    NibbleMasks2(x);
    TopBitIs((x << 16) << 4, 0x1B11_A1CB);
    TopBitIs(((x << 16) << 4) << 1, 0xE030_53C5);
    TopBitIs(((x << 16) << 4) << 2, 0x9DA0_AAC2);
    TopBitIs(((x << 16) << 4) << 3, 0x4ED0_5561);
  }

  lemma {:induction false} NibbleTurns2()
    ensures Turn(0x1B11_A1CB) == 0xE030_53C5 && Turn(0xE030_53C5) == 0x9DA0_AAC2 && Turn(0x9DA0_AAC2) == 0x4ED0_5561
  {
  }

  lemma {:induction false} NibbleMasks1(x: bv32)
    ensures (((x << 24) >> 31) == 0) == (x & 0x0000_0080 == 0)
    ensures ((((x << 24) << 1) >> 31) == 0) == (x & 0x0000_0040 == 0)
    ensures ((((x << 24) << 2) >> 31) == 0) == (x & 0x0000_0020 == 0)
    ensures ((((x << 24) << 3) >> 31) == 0) == (x & 0x0000_0010 == 0)
  {
  }

  lemma {:induction false} NibbleIs1(x: bv32)
    ensures TopNibble(x << 24, 0xCAD0_A990) == Nibble1(x)
  {
    hide Turn, TopBit;
    assert Turn(0xCAD0_A990) == 0x6568_54C8 && Turn(0x6568_54C8) == 0x32B4_2A64 && Turn(0x32B4_2A64) == 0x195A_1532 by { NibbleTurns1(); }
    NibbleMasks1(x);
    TopBitIs(x << 24, 0xCAD0_A990);
    TopBitIs((x << 24) << 1, 0x6568_54C8);
    TopBitIs((x << 24) << 2, 0x32B4_2A64);
    TopBitIs((x << 24) << 3, 0x195A_1532);
  }

  lemma {:induction false} NibbleTurns1()
    ensures Turn(0xCAD0_A990) == 0x6568_54C8 && Turn(0x6568_54C8) == 0x32B4_2A64 && Turn(0x32B4_2A64) == 0x195A_1532
  {
  }

  lemma {:induction false} NibbleMasks0(x: bv32)
    ensures ((((x << 24) << 4) >> 31) == 0) == (x & 0x0000_0008 == 0)
    ensures (((((x << 24) << 4) << 1) >> 31) == 0) == (x & 0x0000_0004 == 0)
    ensures (((((x << 24) << 4) << 2) >> 31) == 0) == (x & 0x0000_0002 == 0)
    ensures (((((x << 24) << 4) << 3) >> 31) == 0) == (x & 0x0000_0001 == 0)
  {
  }

  lemma {:induction false} NibbleIs0(x: bv32)
    ensures TopNibble((x << 24) << 4, 0x0CAD_0A99) == Nibble0(x)
  {
    hide Turn, TopBit;
    assert Turn(0x0CAD_0A99) == 0xEBEE_066C && Turn(0xEBEE_066C) == 0x75F7_0336 && Turn(0x75F7_0336) == 0x3AFB_819B by { NibbleTurns0(); }
    NibbleMasks0(x);
    TopBitIs((x << 24) << 4, 0x0CAD_0A99);
    TopBitIs(((x << 24) << 4) << 1, 0xEBEE_066C);
    TopBitIs(((x << 24) << 4) << 2, 0x75F7_0336);
    TopBitIs(((x << 24) << 4) << 3, 0x3AFB_819B);
  }

  lemma {:induction false} NibbleTurns0()
    ensures Turn(0x0CAD_0A99) == 0xEBEE_066C && Turn(0xEBEE_066C) == 0x75F7_0336 && Turn(0x75F7_0336) == 0x3AFB_819B
  {
  }

  lemma {:induction false} NoTop(m: bv32, d: bv32)
    requires m & 0xFF00_0000 == 0
    ensures TopByte(m, d) == 0
  {
    hide Turn, Turn4, TopNibble;
    NoTopMasks(m);
    NoTopNibble(m, d);
    NoTopNibble(m << 4, Turn4(d));
  }

  lemma {:induction false} NoTopNibble(m: bv32, d: bv32)
    requires m & 0xF000_0000 == 0
    ensures TopNibble(m, d) == 0
  {
    hide Turn, TopBit;
    NibbleClear(m);
    TopBitIs(m, d);
    TopBitIs(m << 1, Turn(d));
    TopBitIs(m << 2, Turn(Turn(d)));
    TopBitIs(m << 3, Turn(Turn(Turn(d))));
  }

  lemma {:induction false} NibbleClear(m: bv32)
    requires m & 0xF000_0000 == 0
    ensures m >> 31 == 0 && (m << 1) >> 31 == 0 && (m << 2) >> 31 == 0 && (m << 3) >> 31 == 0
  {
  }

  lemma {:induction false} NoTopMasks(m: bv32)
    requires m & 0xFF00_0000 == 0
    ensures m & 0xF000_0000 == 0 && (m << 4) & 0xF000_0000 == 0
  {
  }

  lemma {:induction false} NoHigh(x: bv32)
    requires x & 0xFFFF_0000 == 0
    ensures x & 0xFF00_0000 == 0 && (x << 8) & 0xFF00_0000 == 0
  {
  }

  lemma {:induction false} FarTurns()
    ensures Turn8(FAR) == 0xDB3A_0311 && Turn8(0xDB3A_0311) == 0x6A6B_1AF1 && Turn8(0x6A6B_1AF1) == 0xCAD0_A990
    ensures Turn4(0x6A6B_1AF1) == 0x1B11_A1CB && Turn4(0xCAD0_A990) == 0x0CAD_0A99
  {
  }

  lemma {:induction false} FarOfTwo(x: bv32)
    requires x & 0xFFFF_0000 == 0
    ensures Times(x, FAR) == Plus4(0, 0, Plus(Nibble3(x), Nibble2(x)), Plus(Nibble1(x), Nibble0(x)))
  {
    hide Turn, Turn4, Turn8, TopNibble, Plus, Plus4, Nibble3, Nibble2, Nibble1, Nibble0;
    FarTurns();
    assert TopByte(x, FAR) == 0 && TopByte(x << 8, 0xDB3A_0311) == 0 by {
      NoHigh(x);
      NoTop(x, FAR);
      NoTop(x << 8, 0xDB3A_0311);
    }
    NibbleIs3(x);
    NibbleIs2(x);
    NibbleIs1(x);
    NibbleIs0(x);
  }

  /** Two bytes whose effect misses the lowest sixteen. */
  lemma {:induction false} MissesTwo(x: bv32)
    requires x & 0xFFFF_0000 == 0 && Times(x, FAR) & 0x0000_FFFF == 0
    ensures x == 0 || x == 0x0000_801E
  {
    hide Times, Plus4, Nibble3, Nibble2, Nibble1, Nibble0;
    FarOfTwo(x);
    EitherTop(x);
    if x & 0x8000 == 0 { MissesTwoClear(x); } else { MissesTwoSet(x); }
  }

  lemma {:induction false} EitherTop(x: bv32)
    requires x & 0xFFFF_0000 == 0
    ensures x & 0xFFFF_8000 == if x & 0x8000 == 0 then 0 else 0x8000
  {
  }

  lemma {:induction false} MissesTwoClear(x: bv32)
    requires x & 0xFFFF_8000 == 0
    requires Plus4(0, 0, Plus(Nibble3(x), Nibble2(x)), Plus(Nibble1(x), Nibble0(x))) & 0x0000_FFFF == 0
    ensures x == 0
  {
  }

  lemma {:induction false} MissesTwoSet(x: bv32)
    requires x & 0xFFFF_8000 == 0x8000
    requires Plus4(0, 0, Plus(Nibble3(x), Nibble2(x)), Plus(Nibble1(x), Nibble0(x))) & 0x0000_FFFF == 0
    ensures x == 0x0000_801E
  {
  }

  /** A register with only its highest eight bits set that three bytes can lead to. */
  lemma {:induction false} MissesThree(f: bv32)
    requires f & 0x00FF_FFFF == 0 && Times(f, BACK) & 0xFF00_0000 == 0
    ensures f == 0 || f == 0x7E00_0000 || f == 0x8200_0000 || f == 0xFC00_0000
  {
  }

  // ---- bytes of a word ----

  function Half(x: bv32): bv32 { x >> 1 }

  predicate Odd(x: bv32) { x & 1 != 0 }

  function Half4(x: bv32): bv32 { Half(Half(Half(Half(x)))) }

  function Odd4(x: bv32): (b: Bits)
    ensures |b| == 4
  {
    [Odd(x), Odd(Half(x)), Odd(Half(Half(x))), Odd(Half(Half(Half(x))))]
  }

  lemma {:induction false} OddFirst(x: bv32, n: nat)
    ensures LowBits(x, n + 1) == [Odd(x)] + LowBits(Half(x), n)
  {
  }

  lemma {:induction false} FourFirst(x: bv32, n: nat)
    ensures LowBits(x, n + 4) == Odd4(x) + LowBits(Half4(x), n)
  {
    hide LowBits, Half, Odd;
    OddFirst(x, n + 3);
    OddFirst(Half(x), n + 2);
    OddFirst(Half(Half(x)), n + 1);
    OddFirst(Half(Half(Half(x))), n);
    assert [Odd(x)] + ([Odd(Half(x))] + ([Odd(Half(Half(x)))] + ([Odd(Half(Half(Half(x))))] + LowBits(Half4(x), n))))
        == Odd4(x) + LowBits(Half4(x), n);
  }

  function Byte(x: bv32): (b: Bits)
    ensures |b| == 8
  {
    Odd4(x) + Odd4(Half4(x))
  }

  /** The low byte of a word, then the rest. */
  lemma {:induction false} ByteFirst(x: bv32, n: nat)
    ensures LowBits(x, n + 8) == Byte(x) + LowBits(Half4(Half4(x)), n)
  {
    hide LowBits, Half4, Odd4;
    FourFirst(x, n + 4);
    FourFirst(Half4(x), n);
  }

  lemma {:induction false} HalfEight(x: bv32)
    ensures Half4(Half4(x)) == x >> 8
  {
  }

  /** The four bytes of a word. */
  lemma {:induction false} FourBytes(x: bv32)
    ensures var y := Half4(Half4(x)); var z := Half4(Half4(y)); var t := Half4(Half4(z));
            BitsOf(x) == Byte(x) + (Byte(y) + (Byte(z) + (Byte(t) + [])))
  {
    hide LowBits, Half4, Byte;
    var y := Half4(Half4(x)); var z := Half4(Half4(y)); var t := Half4(Half4(z));
    ByteFirst(x, 24);
    ByteFirst(y, 16);
    ByteFirst(z, 8);
    ByteFirst(t, 0);
    assert LowBits(Half4(Half4(t)), 0) == [];
  }

  lemma {:induction false} ByteZero(x: bv32)
    requires Byte(x) == Zeros(8)
    ensures x & 0xFF == 0
  {
    hide LowBits, Half4, Byte;
    ByteFirst(x, 0);
    assert LowBits(Half4(Half4(x)), 0) == [];
    ZeroLowByte(x);
  }

  lemma {:induction false} ZeroLowByte(x: bv32)
    requires LowBits(x, 8) == Zeros(8)
    ensures x & 0xFF == 0
  {
    hide LowBits, LowOnes, Within, WordOf;
    EightOnes();
    MaskedBits(x, 0xFF, 8);
    ZeroBits(8);
    NoBits();
    NothingAbove(x);
    Within8(x & 0xFF, 0);
    Within8(0, 0);
    WordOfBits(x & 0xFF, 8);
    WordOfBits(0, 8);
  }

  lemma {:induction false} NothingAbove(x: bv32)
    ensures (x & 0xFF) >> 8 == 0
  {
  }

  lemma {:induction false} EightOnes()
    ensures LowOnes(0xFF, 8)
  {
    assert LowOnes(0, 0);
    Ones4(0xF, 0);
    Ones4(0xFF, 4);
  }
}
