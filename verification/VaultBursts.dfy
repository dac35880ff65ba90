/**
 Which small changes of a vault its checksum does not notice. The checksum field stands in
 front of the data it covers, so a change that runs out of the field into the data can move
 both by the same bits. There are five such changes, and they are the same for every vault.
 */
module VaultBursts {
  import opened Common
  import opened Crc32
  import opened CrcWords
  import opened Vault

  /** Bytes 8..11 (the field) and 12..15 of the bits an unnoticed change turns over. */
  const UNNOTICED: set<(seq<byte>, seq<byte>)> := {
    ([0x00, 0x73, 0xF7, 0x07], [0xCF, 0x00, 0x00, 0x00]),
    ([0x00, 0x00, 0x85, 0xE1], [0x1E, 0x80, 0x00, 0x00]),
    ([0x00, 0x00, 0x00, 0x7E], [0x13, 0x37, 0x3D, 0x00]),
    ([0x00, 0x00, 0x00, 0x82], [0x35, 0x59, 0x47, 0x00]),
    ([0x00, 0x00, 0x00, 0xFC], [0x26, 0x6E, 0x7A, 0x00])
  }

  predicate Cancelling(f: bv32, x: bv32) {
    || (f == 0x07F7_7300 && x == 0x0000_00CF)
    || (f == 0xE185_0000 && x == 0x0000_801E)
    || (f == 0x7E00_0000 && x == 0x003D_3713)
    || (f == 0x8200_0000 && x == 0x0047_5935)
    || (f == 0xFC00_0000 && x == 0x007A_6E26)
  }

  // ---- bytes and words ----

  /** The same number as bytes and as a machine word. */
  ghost predicate SameWord(b: seq<byte>, x: bv32) { |b| == 4 && Stream(b) == BitsOf(x) }

  lemma {:induction false} WordFor(b: seq<byte>) returns (x: bv32)
    requires |b| == 4
    ensures SameWord(b, x)
  {
    x := WordOf(Stream(b));
    BitsOfWord(Stream(b));
  }

  lemma {:induction false} SameWordUnique(b: seq<byte>, x: bv32, c: seq<byte>, y: bv32)
    requires SameWord(b, x) && SameWord(c, y)
    ensures b == c <==> x == y
  {
    hide Stream, LowBits;
    if b == c { BitsInjective(x, y); }
    if x == y { StreamInjective(b, c); }
  }

  lemma {:induction false} StreamIsNumber(b: seq<byte>)
    requires |b| == 4
    ensures Stream(b) == ToBits(Le(b, 0, 4), 32)
  {
    hide Stream, ToBits, Le, FromBits;
    StreamValue(b, 0, 4);
    assert b[0..4] == b;
    ToFrom(Stream(b));
  }

  lemma {:induction false} Word000000CF()
    ensures SameWord([0xCF, 0x00, 0x00, 0x00], 0x0000_00CF)
  {
    hide LowBits, ToBits;
    assert LowBits(0, 0) == ToBits(0, 0) by { NoLowBits(); }
    Four(0x0, 0x0, 0);
    Four(0x00, 0x00, 4);
    Four(0x000, 0x000, 8);
    Four(0x0000, 0x0000, 12);
    Four(0x00000, 0x00000, 16);
    Four(0x000000, 0x000000, 20);
    Four(0x000000C, 0x000000C, 24);
    Four(0x000000CF, 0x000000CF, 28);
    Number000000CF();
    StreamIsNumber([0xCF, 0x00, 0x00, 0x00]);
  }

  lemma {:induction false} Number000000CF()
    ensures Le([0xCF, 0x00, 0x00, 0x00], 0, 4) == 0x0000_00CF
  {
  }

  lemma {:induction false} Word0000801E()
    ensures SameWord([0x1E, 0x80, 0x00, 0x00], 0x0000_801E)
  {
    hide LowBits, ToBits;
    assert LowBits(0, 0) == ToBits(0, 0) by { NoLowBits(); }
    Four(0x0, 0x0, 0);
    Four(0x00, 0x00, 4);
    Four(0x000, 0x000, 8);
    Four(0x0000, 0x0000, 12);
    Four(0x00008, 0x00008, 16);
    Four(0x000080, 0x000080, 20);
    Four(0x0000801, 0x0000801, 24);
    Four(0x0000801E, 0x0000801E, 28);
    Number0000801E();
    StreamIsNumber([0x1E, 0x80, 0x00, 0x00]);
  }

  lemma {:induction false} Number0000801E()
    ensures Le([0x1E, 0x80, 0x00, 0x00], 0, 4) == 0x0000_801E
  {
  }

  lemma {:induction false} Word003D3713()
    ensures SameWord([0x13, 0x37, 0x3D, 0x00], 0x003D_3713)
  {
    hide LowBits, ToBits;
    assert LowBits(0, 0) == ToBits(0, 0) by { NoLowBits(); }
    Four(0x0, 0x0, 0);
    Four(0x00, 0x00, 4);
    Four(0x003, 0x003, 8);
    Four(0x003D, 0x003D, 12);
    Four(0x003D3, 0x003D3, 16);
    Four(0x003D37, 0x003D37, 20);
    Four(0x003D371, 0x003D371, 24);
    Four(0x003D3713, 0x003D3713, 28);
    Number003D3713();
    StreamIsNumber([0x13, 0x37, 0x3D, 0x00]);
  }

  lemma {:induction false} Number003D3713()
    ensures Le([0x13, 0x37, 0x3D, 0x00], 0, 4) == 0x003D_3713
  {
  }

  lemma {:induction false} Word00475935()
    ensures SameWord([0x35, 0x59, 0x47, 0x00], 0x0047_5935)
  {
    hide LowBits, ToBits;
    assert LowBits(0, 0) == ToBits(0, 0) by { NoLowBits(); }
    Four(0x0, 0x0, 0);
    Four(0x00, 0x00, 4);
    Four(0x004, 0x004, 8);
    Four(0x0047, 0x0047, 12);
    Four(0x00475, 0x00475, 16);
    Four(0x004759, 0x004759, 20);
    Four(0x0047593, 0x0047593, 24);
    Four(0x00475935, 0x00475935, 28);
    Number00475935();
    StreamIsNumber([0x35, 0x59, 0x47, 0x00]);
  }

  lemma {:induction false} Number00475935()
    ensures Le([0x35, 0x59, 0x47, 0x00], 0, 4) == 0x0047_5935
  {
  }

  lemma {:induction false} Word007A6E26()
    ensures SameWord([0x26, 0x6E, 0x7A, 0x00], 0x007A_6E26)
  {
    hide LowBits, ToBits;
    assert LowBits(0, 0) == ToBits(0, 0) by { NoLowBits(); }
    Four(0x0, 0x0, 0);
    Four(0x00, 0x00, 4);
    Four(0x007, 0x007, 8);
    Four(0x007A, 0x007A, 12);
    Four(0x007A6, 0x007A6, 16);
    Four(0x007A6E, 0x007A6E, 20);
    Four(0x007A6E2, 0x007A6E2, 24);
    Four(0x007A6E26, 0x007A6E26, 28);
    Number007A6E26();
    StreamIsNumber([0x26, 0x6E, 0x7A, 0x00]);
  }

  lemma {:induction false} Number007A6E26()
    ensures Le([0x26, 0x6E, 0x7A, 0x00], 0, 4) == 0x007A_6E26
  {
  }

  lemma {:induction false} Word07F77300()
    ensures SameWord([0x00, 0x73, 0xF7, 0x07], 0x07F7_7300)
  {
    hide LowBits, ToBits;
    assert LowBits(0, 0) == ToBits(0, 0) by { NoLowBits(); }
    Four(0x0, 0x0, 0);
    Four(0x07, 0x07, 4);
    Four(0x07F, 0x07F, 8);
    Four(0x07F7, 0x07F7, 12);
    Four(0x07F77, 0x07F77, 16);
    Four(0x07F773, 0x07F773, 20);
    Four(0x07F7730, 0x07F7730, 24);
    Four(0x07F77300, 0x07F77300, 28);
    Number07F77300();
    StreamIsNumber([0x00, 0x73, 0xF7, 0x07]);
  }

  lemma {:induction false} Number07F77300()
    ensures Le([0x00, 0x73, 0xF7, 0x07], 0, 4) == 0x07F7_7300
  {
  }

  lemma {:induction false} Word7E000000()
    ensures SameWord([0x00, 0x00, 0x00, 0x7E], 0x7E00_0000)
  {
    hide LowBits, ToBits;
    assert LowBits(0, 0) == ToBits(0, 0) by { NoLowBits(); }
    Four(0x7, 0x7, 0);
    Four(0x7E, 0x7E, 4);
    Four(0x7E0, 0x7E0, 8);
    Four(0x7E00, 0x7E00, 12);
    Four(0x7E000, 0x7E000, 16);
    Four(0x7E0000, 0x7E0000, 20);
    Four(0x7E00000, 0x7E00000, 24);
    Four(0x7E000000, 0x7E000000, 28);
    Number7E000000();
    StreamIsNumber([0x00, 0x00, 0x00, 0x7E]);
  }

  lemma {:induction false} Number7E000000()
    ensures Le([0x00, 0x00, 0x00, 0x7E], 0, 4) == 0x7E00_0000
  {
  }

  lemma {:induction false} Word82000000()
    ensures SameWord([0x00, 0x00, 0x00, 0x82], 0x8200_0000)
  {
    hide LowBits, ToBits;
    assert LowBits(0, 0) == ToBits(0, 0) by { NoLowBits(); }
    Four(0x8, 0x8, 0);
    Four(0x82, 0x82, 4);
    Four(0x820, 0x820, 8);
    Four(0x8200, 0x8200, 12);
    Four(0x82000, 0x82000, 16);
    Four(0x820000, 0x820000, 20);
    Four(0x8200000, 0x8200000, 24);
    Four(0x82000000, 0x82000000, 28);
    Number82000000();
    StreamIsNumber([0x00, 0x00, 0x00, 0x82]);
  }

  lemma {:induction false} Number82000000()
    ensures Le([0x00, 0x00, 0x00, 0x82], 0, 4) == 0x8200_0000
  {
  }

  lemma {:induction false} WordE1850000()
    ensures SameWord([0x00, 0x00, 0x85, 0xE1], 0xE185_0000)
  {
    hide LowBits, ToBits;
    assert LowBits(0, 0) == ToBits(0, 0) by { NoLowBits(); }
    Four(0xE, 0xE, 0);
    Four(0xE1, 0xE1, 4);
    Four(0xE18, 0xE18, 8);
    Four(0xE185, 0xE185, 12);
    Four(0xE1850, 0xE1850, 16);
    Four(0xE18500, 0xE18500, 20);
    Four(0xE185000, 0xE185000, 24);
    Four(0xE1850000, 0xE1850000, 28);
    NumberE1850000();
    StreamIsNumber([0x00, 0x00, 0x85, 0xE1]);
  }

  lemma {:induction false} NumberE1850000()
    ensures Le([0x00, 0x00, 0x85, 0xE1], 0, 4) == 0xE185_0000
  {
  }

  lemma {:induction false} WordFC000000()
    ensures SameWord([0x00, 0x00, 0x00, 0xFC], 0xFC00_0000)
  {
    hide LowBits, ToBits;
    assert LowBits(0, 0) == ToBits(0, 0) by { NoLowBits(); }
    Four(0xF, 0xF, 0);
    Four(0xFC, 0xFC, 4);
    Four(0xFC0, 0xFC0, 8);
    Four(0xFC00, 0xFC00, 12);
    Four(0xFC000, 0xFC000, 16);
    Four(0xFC0000, 0xFC0000, 20);
    Four(0xFC00000, 0xFC00000, 24);
    Four(0xFC000000, 0xFC000000, 28);
    NumberFC000000();
    StreamIsNumber([0x00, 0x00, 0x00, 0xFC]);
  }

  lemma {:induction false} NumberFC000000()
    ensures Le([0x00, 0x00, 0x00, 0xFC], 0, 4) == 0xFC00_0000
  {
  }

  lemma {:induction false} UnnoticedWords(b: seq<byte>, f: bv32, c: seq<byte>, x: bv32)
    requires SameWord(b, f) && SameWord(c, x)
    ensures (b, c) in UNNOTICED <==> Cancelling(f, x)
  {
    hide SameWord;
    Word000000CF();
    Word0000801E();
    Word003D3713();
    Word00475935();
    Word007A6E26();
    Word07F77300();
    Word7E000000();
    Word82000000();
    WordE1850000();
    WordFC000000();
    SameWordUnique(b, f, [0x00, 0x73, 0xF7, 0x07], 0x07F7_7300);
    SameWordUnique(c, x, [0xCF, 0x00, 0x00, 0x00], 0x0000_00CF);
    SameWordUnique(b, f, [0x00, 0x00, 0x85, 0xE1], 0xE185_0000);
    SameWordUnique(c, x, [0x1E, 0x80, 0x00, 0x00], 0x0000_801E);
    SameWordUnique(b, f, [0x00, 0x00, 0x00, 0x7E], 0x7E00_0000);
    SameWordUnique(c, x, [0x13, 0x37, 0x3D, 0x00], 0x003D_3713);
    SameWordUnique(b, f, [0x00, 0x00, 0x00, 0x82], 0x8200_0000);
    SameWordUnique(c, x, [0x35, 0x59, 0x47, 0x00], 0x0047_5935);
    SameWordUnique(b, f, [0x00, 0x00, 0x00, 0xFC], 0xFC00_0000);
    SameWordUnique(c, x, [0x26, 0x6E, 0x7A, 0x00], 0x007A_6E26);
  }

  lemma {:induction false} WordBytes(b: seq<byte>, x: bv32)
    requires SameWord(b, x)
    ensures var y := Half4(Half4(x)); var z := Half4(Half4(y)); var t := Half4(Half4(z));
            Byte(x) == ToBits(b[0], 8) && Byte(y) == ToBits(b[1], 8) && Byte(z) == ToBits(b[2], 8) && Byte(t) == ToBits(b[3], 8)
  {
    hide LowBits, ToBits, Stream, Half4, Byte;
    var y := Half4(Half4(x)); var z := Half4(Half4(y)); var t := Half4(Half4(z));
    StreamBytes(b);
    FourBytes(x);
    Matched(Byte(x), Byte(y) + (Byte(z) + (Byte(t) + [])), ToBits(b[0], 8), Stream(b[1..]));
    Matched(Byte(y), Byte(z) + (Byte(t) + []), ToBits(b[1], 8), Stream(b[2..]));
    Matched(Byte(z), Byte(t) + [], ToBits(b[2], 8), Stream(b[3..]));
    Matched(Byte(t), [], ToBits(b[3], 8), []);
  }

  lemma {:induction false} Matched(p: Bits, r: Bits, q: Bits, t: Bits)
    requires |p| == |q| && p + r == q + t
    ensures p == q && r == t
  {
    assert p == (p + r)[..|p|] && q == (q + t)[..|q|];
    assert r == (p + r)[|p|..] && t == (q + t)[|q|..];
  }

  lemma {:induction false} StreamBytes(b: seq<byte>)
    requires |b| == 4
    ensures Stream(b) == ToBits(b[0], 8) + Stream(b[1..]) && Stream(b[1..]) == ToBits(b[1], 8) + Stream(b[2..])
    ensures Stream(b[2..]) == ToBits(b[2], 8) + Stream(b[3..]) && Stream(b[3..]) == ToBits(b[3], 8) + []
  {
    hide ToBits;
    assert b[1..][1..] == b[2..] && b[2..][1..] == b[3..] && b[3..][1..] == [];
  }

  /** What a zero byte says about the word. */
  lemma {:induction false} ZeroBytes(b: seq<byte>, x: bv32)
    requires SameWord(b, x)
    ensures b[0] == 0 ==> x & 0x0000_00FF == 0
    ensures b[1] == 0 ==> x & 0x0000_FF00 == 0
    ensures b[2] == 0 ==> x & 0x00FF_0000 == 0
    ensures b[3] == 0 ==> x & 0xFF00_0000 == 0
  {
    hide ToBits, Stream, Half4, Byte, LowBits;
    WordBytes(b, x);
    ZeroByte();
    if b[0] == 0 { ByteZero(x); }
    if b[1] == 0 { SecondZero(x); }
    if b[2] == 0 { ThirdZero(x); }
    if b[3] == 0 { FourthZero(x); }
  }

  lemma {:induction false} SecondZero(x: bv32)
    requires Byte(Half4(Half4(x))) == Zeros(8)
    ensures x & 0x0000_FF00 == 0
  {
    hide Half4, Byte;
    HalfEight(x);
    ByteZero(x >> 8);
    SecondMask(x);
  }

  lemma {:induction false} SecondMask(x: bv32)
    requires (x >> 8) & 0xFF == 0
    ensures x & 0x0000_FF00 == 0
  {
  }

  lemma {:induction false} ThirdZero(x: bv32)
    requires Byte(Half4(Half4(Half4(Half4(x))))) == Zeros(8)
    ensures x & 0x00FF_0000 == 0
  {
    hide Half4, Byte;
    HalfEight(x);
    SecondZero(x >> 8);
    ThirdMask(x);
  }

  lemma {:induction false} ThirdMask(x: bv32)
    requires (x >> 8) & 0x0000_FF00 == 0
    ensures x & 0x00FF_0000 == 0
  {
  }

  lemma {:induction false} FourthZero(x: bv32)
    requires Byte(Half4(Half4(Half4(Half4(Half4(Half4(x))))))) == Zeros(8)
    ensures x & 0xFF00_0000 == 0
  {
    hide Half4, Byte;
    HalfEight(x);
    ThirdZero(x >> 8);
    FourthMask(x);
  }

  lemma {:induction false} FourthMask(x: bv32)
    requires (x >> 8) & 0x00FF_0000 == 0
    ensures x & 0xFF00_0000 == 0
  {
  }

  // ---- which differences cancel ----

  lemma {:induction false} CancelOne(f: bv32, x: bv32)
    requires f & 0x0000_00FF == 0 && x & 0xFFFF_FF00 == 0 && f == Jump(x, 8096)
    ensures (f == 0 && x == 0) || Cancelling(f, x)
  {
    hide Jump, Times;
    Far(x);
    MissesOne(x);
    Images();
  }

  lemma {:induction false} CancelTwo(f: bv32, x: bv32)
    requires f & 0x0000_FFFF == 0 && x & 0xFFFF_0000 == 0 && f == Jump(x, 8096)
    ensures (f == 0 && x == 0) || Cancelling(f, x)
  {
    hide Jump, Times;
    Far(x);
    MissesTwo(x);
    Images();
  }

  lemma {:induction false} CancelThree(f: bv32, x: bv32)
    requires f & 0x00FF_FFFF == 0 && x & 0xFF00_0000 == 0 && f == Jump(x, 8096)
    ensures (f == 0 && x == 0) || Cancelling(f, x)
  {
    hide Jump, Times;
    Back(x);
    MissesThree(f);
    Origins();
  }

  lemma {:induction false} Images()
    ensures Times(0, FAR) == 0 && Times(0x0000_00CF, FAR) == 0x07F7_7300 && Times(0x0000_801E, FAR) == 0xE185_0000
  {
  }

  lemma {:induction false} Origins()
    ensures Times(0, BACK) == 0 && Times(0x7E00_0000, BACK) == 0x003D_3713
    ensures Times(0x8200_0000, BACK) == 0x0047_5935 && Times(0xFC00_0000, BACK) == 0x007A_6E26
  {
  }

  lemma {:induction false} LaterImages()
    ensures Times(0x003D_3713, FAR) == 0x7E00_0000
    ensures Times(0x0047_5935, FAR) == 0x8200_0000 && Times(0x007A_6E26, FAR) == 0xFC00_0000
  {
  }

  lemma {:induction false} CancellingIs(f: bv32, x: bv32)
    requires Cancelling(f, x)
    ensures f == Jump(x, 8096)
  {
    hide Jump, Times;
    Far(x);
    Images();
    LaterImages();
  }

  // ---- records ----

  lemma {:induction false} StoredSum(v: Record)
    ensures Le(v, 8, 4) == RecordSum(v) <==> Stream(v[8..12]) == Not(Updates(Ones(32), WithSum(v, 0)[..VAULT_SIZE - 4]))
  {
    hide FromBits, Stream, Updates, Le;
    StreamValue(v, 8, 4);
    ToFrom(Stream(v[8..12]));
    ToFrom(Not(Updates(Ones(32), WithSum(v, 0)[..VAULT_SIZE - 4])));
  }

  lemma {:induction false} XorOfNot(a: Word, b: Word, c: Word, d: Word)
    requires a == Not(c)
    ensures b == Not(d) <==> Xor(a, b) == Xor(c, d)
  {
    if Xor(a, b) == Xor(c, d) {
      forall i | 0 <= i < 32 ensures b[i] == Not(d)[i] { assert Xor(a, b)[i] == Xor(c, d)[i]; }
      assert b == Not(d);
    }
  }

  lemma {:induction false} CoveredParts(v: Record)
    ensures WithSum(v, 0)[..VAULT_SIZE - 4] == v[..8] + LeBytes(0, 4) + v[12..16] + v[16..VAULT_SIZE - 4]
  {
    hide LeBytes;
  }

  lemma {:induction false} HeaderSame(v: Record, w: Record)
    requires v[..8] == w[..8]
    ensures Le(v, 0, 4) == Le(w, 0, 4) && Le(v, 4, 4) == Le(w, 4, 4)
  {
    hide Le;
    assert v[0..4] == v[..8][0..4] && w[0..4] == w[..8][0..4] && v[4..8] == v[..8][4..8] && w[4..8] == w[..8][4..8];
    LeSame(v, 0, w, 0, 4);
    LeSame(v, 4, w, 4, 4);
  }

  /** A change confined to the field and the four bytes behind it goes unnoticed exactly
      when the field changes by what the data bits have become at the end of the record. */
  lemma {:induction false} FieldAndData(v: Record, w: Record, version: nat)
    requires ValidVersion(v, version) && v[..8] == w[..8] && v[16..] == w[16..]
    ensures ValidVersion(w, version)
            <==> Xor(Stream(v[8..12]), Stream(w[8..12])) == Rounds(Xor(Stream(v[12..16]), Stream(w[12..16])), 8096)
  {
    hide Stream, Updates, Rounds, Le, LeBytes, RecordSum, WithSum, Xor, Not;
    HeaderSame(v, w);
    StoredSum(v);
    StoredSum(w);
    CoveredParts(v);
    CoveredParts(w);
    assert v[16..VAULT_SIZE - 4] == v[16..][..VAULT_SIZE - 20] && w[16..VAULT_SIZE - 4] == w[16..][..VAULT_SIZE - 20];
    DifferenceSpreads(v[..8] + LeBytes(0, 4), v[12..16], w[12..16], v[16..VAULT_SIZE - 4]);
    XorOfNot(Stream(v[8..12]), Stream(w[8..12]),
             Updates(Ones(32), WithSum(v, 0)[..VAULT_SIZE - 4]), Updates(Ones(32), WithSum(w, 0)[..VAULT_SIZE - 4]));
  }

  function FieldChange(v: Record, w: Record): seq<byte> { XorBytes(v[8..12], w[8..12]) }

  function DataChange(v: Record, w: Record): seq<byte> { XorBytes(v[12..16], w[12..16]) }

  /** The same in machine words. */
  lemma {:induction false} ChangeWords(v: Record, w: Record, version: nat, f: bv32, x: bv32)
    requires ValidVersion(v, version) && v[..8] == w[..8] && v[16..] == w[16..]
    requires SameWord(FieldChange(v, w), f) && SameWord(DataChange(v, w), x)
    ensures ValidVersion(w, version) <==> f == Jump(x, 8096)
  {
    hide Stream, Rounds, ValidVersion, Xor, XorBytes, LowBits, Jump;
    FieldAndData(v, w, version);
    StreamXor(v[8..12], w[8..12]);
    StreamXor(v[12..16], w[12..16]);
    JumpBits(x, 8096);
    if BitsOf(f) == BitsOf(Jump(x, 8096)) { BitsInjective(f, Jump(x, 8096)); }
  }

  /** Bytes 8..15 of a change inside a window. */
  lemma {:induction false} ChangeBytes(v: Record, w: Record, k: nat)
    requires k < 4
    ensures FieldChange(v, w)[k] == 0 <==> v[8 + k] == w[8 + k]
    ensures DataChange(v, w)[k] == 0 <==> v[12 + k] == w[12 + k]
  {
    hide XorByte;
    XorByteZero(v[8 + k], w[8 + k]);
    XorByteZero(v[12 + k], w[12 + k]);
  }

  lemma {:induction false} OutsideWindow(v: Record, w: Record, i: nat)
    requires i + 4 <= VAULT_SIZE && DifferAt(v, w, i)
    ensures forall k :: 0 <= k < VAULT_SIZE && !(i <= k < i + 4) ==> v[k] == w[k]
    ensures exists k :: i <= k < i + 4 && v[k] != w[k]
  {
    forall k | 0 <= k < VAULT_SIZE && !(i <= k < i + 4) ensures v[k] == w[k] {
      if k < i { assert v[k] == v[..i][k] && w[k] == w[..i][k]; }
      else { assert v[k] == v[i + 4..][k - i - 4] && w[k] == w[i + 4..][k - i - 4]; }
    }
    if forall k :: i <= k < i + 4 ==> v[k] == w[k] { SameEverywhere(v, w); }
  }

  lemma {:induction false} SameEverywhere(v: Record, w: Record)
    requires forall k :: 0 <= k < VAULT_SIZE ==> v[k] == w[k]
    ensures v == w
  {
  }

  lemma {:induction false} Straddling(v: Record, w: Record, version: nat, i: nat)
    requires ValidVersion(v, version) && 9 <= i <= 11 && DifferAt(v, w, i)
    ensures ValidVersion(w, version) <==> (FieldChange(v, w), DataChange(v, w)) in UNNOTICED
  {
    hide ValidVersion, XorBytes, SameWord, Jump, Cancelling, UNNOTICED;
    OutsideWindow(v, w, i);
    assert v[..8] == w[..8] && v[16..] == w[16..];
    ChangeBytes(v, w, 0);
    ChangeBytes(v, w, 1);
    ChangeBytes(v, w, 2);
    ChangeBytes(v, w, 3);
    var b, c := FieldChange(v, w), DataChange(v, w);
    var f := WordFor(b);
    var x := WordFor(c);
    ChangeWords(v, w, version, f, x);
    UnnoticedWords(b, f, c, x);
    ZeroBytes(b, f);
    ZeroBytes(c, x);
    if Cancelling(f, x) { CancellingIs(f, x); }
    if f == Jump(x, 8096) {
      OneCancels(f, x, i);
      if f == 0 && x == 0 {
        NoChange(b, f);
        NoChange(c, x);
      }
    }
  }

  lemma {:induction false} OneCancels(f: bv32, x: bv32, i: nat)
    requires 9 <= i <= 11 && f == Jump(x, 8096)
    requires f & 0x0000_00FF == 0 && x & 0xFF00_0000 == 0
    requires i >= 10 ==> f & 0x0000_FF00 == 0
    requires i >= 11 ==> f & 0x00FF_0000 == 0
    requires i <= 10 ==> x & 0x00FF_0000 == 0
    requires i <= 9 ==> x & 0x0000_FF00 == 0
    ensures (f == 0 && x == 0) || Cancelling(f, x)
  {
    hide Jump, Cancelling;
    JoinMasks(f);
    JoinMasks(x);
    if i == 9 { CancelOne(f, x); } else if i == 10 { CancelTwo(f, x); } else { CancelThree(f, x); }
  }

  lemma {:induction false} JoinMasks(x: bv32)
    ensures x & 0x0000_00FF == 0 && x & 0x0000_FF00 == 0 ==> x & 0x0000_FFFF == 0
    ensures x & 0x0000_00FF == 0 && x & 0x0000_FF00 == 0 && x & 0x00FF_0000 == 0 ==> x & 0x00FF_FFFF == 0
    ensures x & 0xFF00_0000 == 0 && x & 0x00FF_0000 == 0 ==> x & 0xFFFF_0000 == 0
    ensures x & 0xFF00_0000 == 0 && x & 0x00FF_0000 == 0 && x & 0x0000_FF00 == 0 ==> x & 0xFFFF_FF00 == 0
  {
  }

  lemma {:induction false} NoChange(b: seq<byte>, x: bv32)
    requires SameWord(b, x) && x == 0
    ensures b == [0, 0, 0, 0]
  {
    hide LowBits, Stream;
    ZeroBits(32);
    ZeroWord();
    SameWordUnique(b, x, [0, 0, 0, 0], 0);
  }

  lemma {:induction false} ZeroWord()
    ensures Stream([0, 0, 0, 0]) == Zeros(32)
  {
    hide ToBits;
    ZeroByte();
  }

  /** A valid record changed inside any four consecutive covered bytes is rejected, but for
      the five changes listed, which go unnoticed in every record. */
  lemma {:induction false} ChangedRecordExactly(v: Record, w: Record, version: nat, i: nat)
    requires ValidVersion(v, version) && i + 4 <= VAULT_SIZE - 4 && DifferAt(v, w, i)
    ensures ValidVersion(w, version) <==> (FieldChange(v, w), DataChange(v, w)) in UNNOTICED
  {
    hide ValidVersion, XorBytes;
    if 9 <= i <= 11 {
      Straddling(v, w, version, i);
    } else {
      ChangedRecordRejected(v, w, version, i);
      OutsideWindow(v, w, i);
      ChangeBytes(v, w, 3);
      ChangeBytes(v, w, 0);
      if (FieldChange(v, w), DataChange(v, w)) in UNNOTICED { BothSides(FieldChange(v, w), DataChange(v, w)); }
    }
  }

  lemma {:induction false} BothSides(b: seq<byte>, c: seq<byte>)
    requires |b| == |c| == 4 && (b, c) in UNNOTICED
    ensures b[3] != 0 && c[0] != 0
  {
  }

  /** Every valid record has a valid neighbour that differs from it in bytes 9..12 alone. */
  lemma {:induction false} Neighbour(v: Record, version: nat) returns (w: Record)
    requires ValidVersion(v, version)
    ensures DifferAt(v, w, 9) && ValidVersion(w, version)
  {
    hide ValidVersion, XorByte;
    w := v[9 := XorByte(v[9], 0x73)][10 := XorByte(v[10], 0xF7)][11 := XorByte(v[11], 0x07)][12 := XorByte(v[12], 0xCF)];
    XorByteTwice(v[9], 0x73);
    XorByteTwice(v[10], 0xF7);
    XorByteTwice(v[11], 0x07);
    XorByteTwice(v[12], 0xCF);
    XorByteZero(v[9], w[9]);
    XorByteZero(v[8], w[8]);
    XorByteZero(v[13], w[13]);
    XorByteZero(v[14], w[14]);
    XorByteZero(v[15], w[15]);
    assert v[..9] == w[..9] && v[13..] == w[13..];
    assert FieldChange(v, w) == [0x00, 0x73, 0xF7, 0x07] && DataChange(v, w) == [0xCF, 0x00, 0x00, 0x00];
    ChangedRecordExactly(v, w, version, 9);
  }
}
