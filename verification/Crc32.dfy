/**
 The CRC-32 loop that seals the GridFS superblock and the vault: what it computes and
 which changes it is sure to notice.
 A machine word is a sequence of bits, the lowest first.
 */
module Crc32 {
  import opened Common

  type Bits = seq<bool>
  type Word = s: Bits | |s| == 32 witness seq(32, _ => false)

  function ToBits(n: nat, width: nat): (s: Bits)
    ensures |s| == width
  {
    if width == 0 then [] else [n % 2 == 1] + ToBits(n / 2, width - 1)
  }

  function FromBits(s: Bits): nat {
    if s == [] then 0 else (if s[0] then 1 else 0) + 2 * FromBits(s[1..])
  }

  lemma {:induction false} FromBitsBound(s: Bits)
    ensures FromBits(s) < Pow2(|s|)
  {
    if s != [] { FromBitsBound(s[1..]); }
  }

  lemma {:induction false} ToFrom(s: Bits)
    ensures ToBits(FromBits(s), |s|) == s
  {
    if s != [] {
      ToFrom(s[1..]);
      assert s == [s[0]] + s[1..];
    }
  }

  lemma {:induction false} FromTo(n: nat, width: nat)
    requires n < Pow2(width)
    ensures FromBits(ToBits(n, width)) == n
  {
    if width > 0 { FromTo(n / 2, width - 1); }
  }

  function Xor(a: Bits, b: Bits): (r: Bits)
    requires |a| == |b|
    ensures |r| == |a|
  {
    seq(|a|, i requires 0 <= i < |a| => a[i] != b[i])
  }

  function Not(a: Bits): (r: Bits)
    ensures |r| == |a|
  {
    seq(|a|, i requires 0 <= i < |a| => !a[i])
  }

  function Zeros(n: nat): (r: Bits)
    ensures |r| == n
  {
    seq(n, _ => false)
  }

  function Ones(n: nat): (r: Bits)
    ensures |r| == n
  {
    seq(n, _ => true)
  }

  function Poly(): Word { ToBits(0xEDB8_8320, 32) }

  lemma {:induction false} TopBitIs(n: nat, width: nat)
    requires n < Pow2(width) && width > 0
    ensures ToBits(n, width)[width - 1] == (n >= Pow2(width - 1))
  {
    if width > 1 { TopBitIs(n / 2, width - 1); }
  }

  lemma {:induction false} PolyTop()
    ensures Poly()[31]
  {
    hide ToBits;
    assert Pow2(8) == 256;
    Pow2Sum(8, 8);
    Pow2Sum(16, 16);
    assert Pow2(32) == 2 * Pow2(31);
    TopBitIs(0xEDB8_8320, 32);
  }

  // ---- the loop ----

  /** One round: shift right, and fold the polynomial in when a one falls out. */
  function Round(c: Word): (r: Word) {
    var shifted := c[1..] + [false];
    if c[0] then Xor(shifted, Poly()) else shifted
  }

  function Rounds(c: Word, n: nat): (r: Word)
    decreases n
  {
    if n == 0 then c else Rounds(Round(c), n - 1)
  }

  /** Bits xored into the low end of the register. */
  function XorLow(c: Word, m: Bits): (r: Word)
    requires |m| <= 32
  {
    Xor(c, m + Zeros(32 - |m|))
  }

  /** `crc32_update` */
  function Update(c: Word, b: byte): (r: Word) { Rounds(XorLow(c, ToBits(b, 8)), 8) }

  function Updates(c: Word, s: seq<byte>): (r: Word)
    decreases |s|
  {
    if s == [] then c else Updates(Update(c, s[0]), s[1..])
  }

  /** The checksum of a region, as the 32-bit number the code stores. */
  function Checksum(s: seq<byte>): (r: nat) { FromBits(Not(Updates(Ones(32), s))) }

  /** `crc32_update` as a loop over the running register. */
  method UpdateLoop(crc: Word, b: byte) returns (r: Word)
    ensures r == Update(crc, b)
  {
    hide Poly, Xor, XorLow, ToBits, Rounds;
    r := XorLow(crc, ToBits(b, 8));
    for i := 0 to 8
      invariant Rounds(r, 8 - i) == Update(crc, b)
    {
      RoundsStep(r, 8 - i);
      var shifted := r[1..] + [false];
      if r[0] { r := Xor(shifted, Poly()); } else { r := shifted; }
    }
    RoundsNone(r);
  }

  lemma {:induction false} RoundsStep(c: Word, n: nat)
    requires n > 0
    ensures Rounds(c, n) == Rounds(Round(c), n - 1)
  {
  }

  lemma {:induction false} RoundsNone(c: Word)
    ensures Rounds(c, 0) == c
  {
  }

  method ChecksumLoop(s: seq<byte>) returns (r: nat)
    ensures r == Checksum(s)
  {
    var crc: Word := Ones(32);
    for i := 0 to |s|
      invariant Updates(crc, s[i..]) == Updates(Ones(32), s)
    {
      assert s[i..][1..] == s[i + 1..];
      crc := UpdateLoop(crc, s[i]);
    }
    r := FromBits(Not(crc));
  }

  // ---- one bit at a time ----

  function Feed(c: Word, m: bool): (r: Word) { Round(c[0 := c[0] != m]) }

  function FeedAll(c: Word, m: Bits): (r: Word)
    decreases |m|
  {
    if m == [] then c else FeedAll(Feed(c, m[0]), m[1..])
  }

  /** A round carries bits still to come one place down. */
  lemma {:induction false} RoundXorLow(c: Word, m: Bits)
    requires 0 < |m| <= 32
    ensures Round(XorLow(c, m)) == XorLow(Feed(c, m[0]), m[1..])
  {
    var x := XorLow(c, m);
    var y := c[0 := c[0] != m[0]];
    assert x[0] == y[0];
    forall i | 0 <= i < 32 ensures Round(x)[i] == XorLow(Round(y), m[1..])[i] {
      if i < 31 { assert x[1..][i] == x[i + 1]; }
    }
  }

  lemma {:induction false} RoundsFeed(c: Word, m: Bits)
    requires |m| <= 32
    ensures Rounds(XorLow(c, m), |m|) == FeedAll(c, m)
    decreases |m|
  {
    if m == [] {
      assert XorLow(c, m) == c;
    } else {
      RoundXorLow(c, m);
      RoundsFeed(Feed(c, m[0]), m[1..]);
    }
  }

  lemma {:induction false} FeedAppend(c: Word, a: Bits, b: Bits)
    ensures FeedAll(c, a + b) == FeedAll(FeedAll(c, a), b)
    decreases |a|
  {
    if a == [] {
      assert a + b == b;
    } else {
      assert (a + b)[1..] == a[1..] + b;
      FeedAppend(Feed(c, a[0]), a[1..], b);
    }
  }

  /** The bits of a region in the order the loop meets them: each byte lowest bit first. */
  function Stream(s: seq<byte>): (m: Bits)
    ensures |m| == 8 * |s|
  {
    if s == [] then [] else ToBits(s[0], 8) + Stream(s[1..])
  }

  /** The byte loop is the bit loop. */
  lemma {:induction false} UpdatesFeed(c: Word, s: seq<byte>)
    ensures Updates(c, s) == FeedAll(c, Stream(s))
    decreases |s|
  {
    if s != [] {
      RoundsFeed(c, ToBits(s[0], 8));
      UpdatesFeed(Update(c, s[0]), s[1..]);
      FeedAppend(c, ToBits(s[0], 8), Stream(s[1..]));
    }
  }

  // ---- bijection ----

  /** The way back: the top bit of a word tells whether the polynomial was folded in. */
  function Unround(c: Word): (r: Word) {
    if c[31] then [true] + Xor(c, Poly())[..31] else [false] + c[..31]
  }

  lemma {:induction false} XorTwice(a: Bits, b: Bits)
    requires |a| == |b|
    ensures Xor(Xor(a, b), b) == a
  {
  }

  lemma {:induction false} UnroundRound(c: Word)
    ensures Unround(Round(c)) == c
  {
    hide Poly, Xor;
    PolyTop();
    var shifted := c[1..] + [false];
    XorTwice(shifted, Poly());
    XorTop(shifted, Poly());
    assert shifted[..31] == c[1..];
    assert c == [c[0]] + c[1..];
  }

  lemma {:induction false} XorTop(a: Word, b: Word)
    ensures Xor(a, b)[31] == (a[31] != b[31])
    ensures Xor(a, b)[..31] == Xor(a[..31], b[..31])
  {
  }

  lemma {:induction false} RoundUnround(c: Word)
    ensures Round(Unround(c)) == c
  {
    hide Poly, Xor;
    PolyTop();
    XorTop(c, Poly());
    XorTwice(c, Poly());
    var x := Xor(c, Poly());
    assert c[31] ==> x == x[..31] + [false];
    assert !c[31] ==> c == c[..31] + [false];
  }

  lemma {:induction false} RoundsInjective(c: Word, d: Word, n: nat)
    requires Rounds(c, n) == Rounds(d, n)
    ensures c == d
    decreases n
  {
    if n > 0 {
      RoundsInjective(Round(c), Round(d), n - 1);
      UnroundRound(c);
      UnroundRound(d);
    }
  }

  lemma {:induction false} XorLowInjective(c: Word, m: Bits, d: Word, k: Bits)
    requires |m| == |k| <= 32 && XorLow(c, m) == XorLow(d, k)
    ensures m == k ==> c == d
    ensures c == d ==> m == k
  {
    forall i | 0 <= i < 32
      ensures m == k ==> c[i] == d[i]
      ensures c == d && i < |m| ==> m[i] == k[i]
    {
      assert XorLow(c, m)[i] == XorLow(d, k)[i];
    }
  }

  lemma {:induction false} XorLowTwice(c: Word, m: Bits)
    requires |m| <= 32
    ensures XorLow(XorLow(c, m), m) == c
  {
  }

  function Unrounds(c: Word, n: nat): (r: Word) {
    if n == 0 then c else Unround(Unrounds(c, n - 1))
  }

  lemma {:induction false} RoundsUnrounds(c: Word, n: nat)
    ensures Rounds(Unrounds(c, n), n) == c
  {
    hide Round, Unround;
    if n > 0 {
      RoundUnround(Unrounds(c, n - 1));
      RoundsUnrounds(c, n - 1);
    }
  }

  /** For each byte the update is a bijection on the register: one and only one register
      leads to any given one. */
  lemma {:induction false} UpdateBijection(b: byte, r: Word)
    ensures Update(XorLow(Unrounds(r, 8), ToBits(b, 8)), b) == r
    ensures forall c: Word :: Update(c, b) == r ==> c == XorLow(Unrounds(r, 8), ToBits(b, 8))
  {
    var m := ToBits(b, 8);
    XorLowTwice(Unrounds(r, 8), m);
    RoundsUnrounds(r, 8);
    forall c: Word | Update(c, b) == r ensures c == XorLow(Unrounds(r, 8), m) {
      RoundsInjective(XorLow(c, m), Unrounds(r, 8), 8);
      XorLowTwice(c, m);
    }
  }

  lemma {:induction false} FeedAllInjective(c: Word, d: Word, m: Bits)
    requires FeedAll(c, m) == FeedAll(d, m)
    ensures c == d
    decreases |m|
  {
    if m != [] {
      FeedAllInjective(Feed(c, m[0]), Feed(d, m[0]), m[1..]);
      UnroundRound(c[0 := c[0] != m[0]]);
      UnroundRound(d[0 := d[0] != m[0]]);
      assert c[0 := c[0] != m[0]] == d[0 := d[0] != m[0]];
      assert c == c[0 := c[0] != m[0]][0 := c[0]];
    }
  }

  // ---- bursts ----

  /** Two bit streams that differ only inside 32 consecutive bits leave different
      registers. */
  lemma {:induction false} BurstBits(c: Word, pre: Bits, m: Bits, k: Bits, post: Bits)
    requires |m| == |k| <= 32 && m != k
    ensures FeedAll(c, pre + m + post) != FeedAll(c, pre + k + post)
  {
    FeedAppend(c, pre + m, post);
    FeedAppend(c, pre, m);
    FeedAppend(c, pre + k, post);
    FeedAppend(c, pre, k);
    if FeedAll(c, pre + m + post) == FeedAll(c, pre + k + post) {
      var d := FeedAll(c, pre);
      FeedAllInjective(FeedAll(d, m), FeedAll(d, k), post);
      RoundsFeed(d, m);
      RoundsFeed(d, k);
      RoundsInjective(XorLow(d, m), XorLow(d, k), |m|);
      XorLowInjective(d, m, d, k);
    }
  }

  lemma {:induction false} StreamAppend(a: seq<byte>, b: seq<byte>)
    ensures Stream(a + b) == Stream(a) + Stream(b)
  {
    if a == [] {
      assert a + b == b;
    } else {
      assert (a + b)[1..] == a[1..] + b;
      StreamAppend(a[1..], b);
    }
  }

  lemma {:induction false} StreamInjective(a: seq<byte>, b: seq<byte>)
    requires |a| == |b| && Stream(a) == Stream(b)
    ensures a == b
  {
    if a != [] {
      assert ToBits(a[0], 8) == Stream(a)[..8];
      assert Stream(a[1..]) == Stream(a)[8..];
      assert Stream(b[1..]) == Stream(b)[8..];
      FromTo(a[0], 8);
      FromTo(b[0], 8);
      StreamInjective(a[1..], b[1..]);
      assert a == [a[0]] + a[1..] && b == [b[0]] + b[1..];
    }
  }

  lemma {:induction false} NotInjective(a: Bits, b: Bits)
    requires |a| == |b| && Not(a) == Not(b)
    ensures a == b
  {
    forall i | 0 <= i < |a| ensures a[i] == b[i] { assert Not(a)[i] == Not(b)[i]; }
  }

  /** The same for regions of bytes. */
  lemma {:induction false} BurstRegisters(pre: seq<byte>, m: seq<byte>, k: seq<byte>, post: seq<byte>)
    requires |m| == |k| <= 4 && m != k
    ensures Updates(Ones(32), pre + m + post) != Updates(Ones(32), pre + k + post)
  {
    UpdatesFeed(Ones(32), pre + m + post);
    UpdatesFeed(Ones(32), pre + k + post);
    StreamAppend(pre + m, post);
    StreamAppend(pre, m);
    StreamAppend(pre + k, post);
    StreamAppend(pre, k);
    if Stream(m) == Stream(k) { StreamInjective(m, k); }
    BurstBits(Ones(32), Stream(pre), Stream(m), Stream(k), Stream(post));
  }

  /** Regions of equal length that differ only inside four consecutive bytes always have
      different checksums. */
  lemma {:induction false} BurstDetected(pre: seq<byte>, m: seq<byte>, k: seq<byte>, post: seq<byte>)
    requires |m| == |k| <= 4 && m != k
    ensures Checksum(pre + m + post) != Checksum(pre + k + post)
  {
    var s, t := pre + m + post, pre + k + post;
    BurstRegisters(pre, m, k, post);
    if Checksum(s) == Checksum(t) {
      ToFrom(Not(Updates(Ones(32), s)));
      ToFrom(Not(Updates(Ones(32), t)));
      NotInjective(Updates(Ones(32), s), Updates(Ones(32), t));
    }
  }

  // ---- a region with its checksum behind it ----

  lemma {:induction false} FromBitsFirst(s: Bits)
    requires s != []
    ensures FromBits(s) == (if s[0] then 1 else 0) + 2 * FromBits(s[1..])
  {
  }

  lemma {:induction false} FromBitsAppend(a: Bits, b: Bits)
    ensures FromBits(a + b) == FromBits(a) + Pow2(|a|) * FromBits(b)
  {
    if a == [] {
      assert a + b == b;
    } else {
      hide FromBits;
      assert (a + b)[1..] == a[1..] + b;
      FromBitsFirst(a);
      FromBitsFirst(a + b);
      FromBitsAppend(a[1..], b);
      Doubled(Pow2(|a| - 1), FromBits(b));
    }
  }

  lemma {:induction false} Doubled(p: nat, n: nat)
    ensures 2 * (p * n) == (2 * p) * n
  {
  }

  /** The bits of stored bytes spell the little-endian number they hold. */
  lemma {:induction false} StreamValue(b: seq<byte>, off: nat, n: nat)
    requires off + n <= |b|
    ensures FromBits(Stream(b[off..off + n])) == Le(b, off, n)
    decreases n
  {
    if n > 0 {
      var s := b[off..off + n];
      assert s[1..] == b[off + 1..off + n];
      StreamValue(b, off + 1, n - 1);
      FromBitsAppend(ToBits(s[0], 8), Stream(s[1..]));
      assert Pow2(8) == 256;
      FromTo(s[0], 8);
    }
  }

  /** Whatever the region, its checksum stored right behind it leads to one fixed register. */
  lemma {:induction false} SealedResidue(b: seq<byte>, n: nat)
    requires n + 4 <= |b| && Le(b, n, 4) == Checksum(b[..n])
    ensures Updates(Ones(32), b[..n + 4]) == Rounds(Ones(32), 32)
  {
    hide Rounds, Updates, FromBits, Le, Stream, XorLow, ToBits;
    var c := Updates(Ones(32), b[..n]);
    var sum := Stream(b[n..n + 4]);
    StreamValue(b, n, 4);
    ToFrom(sum);
    ToFrom(Not(c));
    assert sum == Not(c);
    assert b[..n + 4] == b[..n] + b[n..n + 4];
    StreamAppend(b[..n], b[n..n + 4]);
    UpdatesFeed(Ones(32), b[..n]);
    UpdatesFeed(Ones(32), b[..n + 4]);
    FeedAppend(Ones(32), Stream(b[..n]), sum);
    RoundsFeed(c, sum);
    XorNot(c);
  }

  lemma {:induction false} XorNot(c: Word)
    ensures XorLow(c, Not(c)) == Ones(32)
  {
  }

  // ---- differences ----

  lemma {:induction false} XorNone(a: Bits)
    ensures Xor(a, a) == Zeros(|a|) && Xor(a, Zeros(|a|)) == a && Xor(Zeros(|a|), a) == a
  {
  }

  lemma {:induction false} XorJoin(a: Bits, b: Bits, c: Bits, d: Bits)
    requires |a| == |b| && |c| == |d|
    ensures Xor(a + c, b + d) == Xor(a, b) + Xor(c, d)
  {
  }

  lemma {:induction false} RoundXor(c: Word, d: Word)
    ensures Round(Xor(c, d)) == Xor(Round(c), Round(d))
  {
    hide Poly;
    var x := Xor(c, d);
    forall i | 0 <= i < 32 ensures Round(x)[i] == Xor(Round(c), Round(d))[i] {
      if i < 31 { assert x[1..][i] == x[i + 1]; }
    }
  }

  lemma {:induction false} FeedXor(c: Word, d: Word, m: bool, k: bool)
    ensures Feed(Xor(c, d), m != k) == Xor(Feed(c, m), Feed(d, k))
  {
    hide Round;
    var x, y := c[0 := c[0] != m], d[0 := d[0] != k];
    assert Xor(c, d)[0 := Xor(c, d)[0] != (m != k)] == Xor(x, y);
    RoundXor(x, y);
  }

  /** The loop is linear: the difference of two runs is the run of the difference. */
  lemma {:induction false} FeedAllXor(c: Word, d: Word, m: Bits, k: Bits)
    requires |m| == |k|
    ensures FeedAll(Xor(c, d), Xor(m, k)) == Xor(FeedAll(c, m), FeedAll(d, k))
    decreases |m|
  {
    hide Feed;
    if m != [] {
      FeedXor(c, d, m[0], k[0]);
      assert Xor(m, k)[1..] == Xor(m[1..], k[1..]);
      FeedAllXor(Feed(c, m[0]), Feed(d, k[0]), m[1..], k[1..]);
    }
  }

  lemma {:induction false} FeedZeros(c: Word, n: nat)
    ensures FeedAll(c, Zeros(n)) == Rounds(c, n)
    decreases n
  {
    hide Round;
    if n > 0 {
      assert Zeros(n)[1..] == Zeros(n - 1);
      assert c[0 := c[0] != false] == c;
      FeedZeros(Round(c), n - 1);
    }
  }

  lemma {:induction false} RoundsAdd(c: Word, a: nat, b: nat)
    ensures Rounds(c, a + b) == Rounds(Rounds(c, a), b)
    decreases a
  {
    hide Round;
    if a > 0 { RoundsAdd(Round(c), a - 1, b); }
  }

  /** Two regions that differ in four bytes leave registers that differ by what those bits
      have become after as many rounds as bits were still to come. */
  lemma {:induction false} DifferenceSpreads(pre: seq<byte>, a: seq<byte>, b: seq<byte>, post: seq<byte>)
    requires |a| == |b| == 4
    ensures Xor(Updates(Ones(32), pre + a + post), Updates(Ones(32), pre + b + post))
            == Rounds(Xor(Stream(a), Stream(b)), 32 + 8 * |post|)
  {
    hide Rounds, Updates, FeedAll, Stream, Xor, XorLow;
    var c := Updates(Ones(32), pre);
    var x := Xor(Stream(a), Stream(b));
    Continued(pre, a, post);
    Continued(pre, b, post);
    FeedAllXor(c, c, Stream(a) + Stream(post), Stream(b) + Stream(post));
    XorJoin(Stream(a), Stream(b), Stream(post), Stream(post));
    XorNone(c);
    XorNone(Stream(post));
    FeedAppend(Zeros(32), x, Zeros(8 * |post|));
    RoundsFeed(Zeros(32), x);
    FromNothing(x);
    FeedZeros(Rounds(x, 32), 8 * |post|);
    RoundsAdd(x, 32, 8 * |post|);
  }

  lemma {:induction false} FromNothing(x: Word)
    ensures XorLow(Zeros(32), x) == x
  {
  }

  lemma {:induction false} Continued(pre: seq<byte>, a: seq<byte>, post: seq<byte>)
    ensures Updates(Ones(32), pre + a + post) == FeedAll(Updates(Ones(32), pre), Stream(a) + Stream(post))
  {
    hide Updates, FeedAll, Stream;
    UpdatesFeed(Ones(32), pre + a + post);
    UpdatesFeed(Ones(32), pre);
    StreamAppend(pre + a, post);
    StreamAppend(pre, a);
    assert Stream(pre) + Stream(a) + Stream(post) == Stream(pre) + (Stream(a) + Stream(post));
    FeedAppend(Ones(32), Stream(pre), Stream(a) + Stream(post));
  }

  /** The bits in which two byte sequences differ, as bytes again. */
  function XorBytes(a: seq<byte>, b: seq<byte>): (r: seq<byte>)
    requires |a| == |b|
    ensures |r| == |a|
  {
    seq(|a|, i requires 0 <= i < |a| => XorByte(a[i], b[i]))
  }

  function XorByte(a: byte, b: byte): byte {
    FromBitsBound(Xor(ToBits(a, 8), ToBits(b, 8)));
    assert Pow2(8) == 256;
    FromBits(Xor(ToBits(a, 8), ToBits(b, 8)))
  }

  lemma {:induction false} XorByteBits(a: byte, b: byte)
    ensures ToBits(XorByte(a, b), 8) == Xor(ToBits(a, 8), ToBits(b, 8))
  {
    hide ToBits, FromBits, Xor;
    ToFrom(Xor(ToBits(a, 8), ToBits(b, 8)));
  }

  lemma {:induction false} XorByteZero(a: byte, b: byte)
    ensures XorByte(a, b) == 0 <==> a == b
  {
    hide ToBits, FromBits, Xor, XorByte;
    XorByteBits(a, b);
    ZeroByte();
    var x, y := ToBits(a, 8), ToBits(b, 8);
    XorNone(x);
    if XorByte(a, b) == 0 {
      SameBits(x, y);
      assert Pow2(8) == 256;
      FromTo(a, 8);
      FromTo(b, 8);
    } else if a == b {
      ZeroOnly(XorByte(a, b));
    }
  }

  lemma {:induction false} XorByteTwice(a: byte, b: byte)
    ensures XorByte(a, XorByte(a, b)) == b
  {
    hide ToBits, FromBits, Xor, XorByte;
    XorByteBits(a, b);
    XorByteBits(a, XorByte(a, b));
    XorBack(ToBits(a, 8), ToBits(b, 8));
    assert Pow2(8) == 256;
    FromTo(b, 8);
    FromTo(XorByte(a, XorByte(a, b)), 8);
  }

  lemma {:induction false} XorBack(a: Bits, b: Bits)
    requires |a| == |b|
    ensures Xor(a, Xor(a, b)) == b
  {
  }

  lemma {:induction false} ZeroByte()
    ensures ToBits(0, 8) == Zeros(8)
  {
  }

  lemma {:induction false} ZeroOnly(a: byte)
    requires ToBits(a, 8) == Zeros(8)
    ensures a == 0
  {
    hide ToBits;
    ZeroByte();
    assert Pow2(8) == 256;
    FromTo(a, 8);
    FromTo(0, 8);
  }

  lemma {:induction false} SameBits(a: Bits, b: Bits)
    requires |a| == |b| && Xor(a, b) == Zeros(|a|)
    ensures a == b
  {
    forall i | 0 <= i < |a| ensures a[i] == b[i] { assert Xor(a, b)[i] == false; }
  }

  lemma {:induction false} StreamXor(a: seq<byte>, b: seq<byte>)
    requires |a| == |b|
    ensures Stream(XorBytes(a, b)) == Xor(Stream(a), Stream(b))
  {
    if a == [] {
      assert Xor([], []) == [];
    } else {
      hide ToBits, Xor, XorByte;
      XorByteBits(a[0], b[0]);
      assert XorBytes(a, b)[1..] == XorBytes(a[1..], b[1..]);
      StreamXor(a[1..], b[1..]);
      XorJoin(ToBits(a[0], 8), ToBits(b[0], 8), Stream(a[1..]), Stream(b[1..]));
    }
  }

  // ---- the polynomial remainder ----

  /** Coefficient of x^i of a polynomial over two elements. */
  predicate Coef(p: Bits, i: nat) { i < |p| && p[i] }

  ghost predicate Same(p: Bits, q: Bits) { forall i: nat :: Coef(p, i) == Coef(q, i) }

  function Add(p: Bits, q: Bits): (r: Bits)
    ensures |r| == Max(|p|, |q|)
    ensures forall i: nat :: Coef(r, i) == (Coef(p, i) != Coef(q, i))
  {
    seq(Max(|p|, |q|), i requires 0 <= i => Coef(p, i) != Coef(q, i))
  }

  /** p times x^n. */
  function TimesX(p: Bits, n: nat): Bits { Zeros(n) + p }

  /** The generator x^32 + x^26 + x^23 + ... + 1. */
  function Generator(): Bits { Reverse(Poly()) + [true] }

  function TimesGenerator(q: Bits): Bits {
    if q == [] then [] else Add(if q[0] then Generator() else [], TimesX(TimesGenerator(q[1..]), 1))
  }

  /** r is what is left of a on division by the generator. */
  ghost predicate IsRemainder(r: Bits, a: Bits) {
    |r| <= 32 && exists q :: Same(Add(a, r), TimesGenerator(q))
  }

  lemma {:induction false} TimesXCoef(p: Bits, n: nat, i: nat)
    ensures Coef(TimesX(p, n), i) == (i >= n && Coef(p, i - n))
  {
  }

  lemma {:induction false} ReverseAt(s: Bits, i: nat)
    requires i < |s|
    ensures Reverse(s)[i] == s[|s| - 1 - i]
  {
    if i < |s| - 1 { ReverseAt(s[1..], i); }
  }

  /** The register as a polynomial: its lowest bit is the coefficient of x^31. */
  function Register(c: Word): (p: Bits)
    ensures |p| == 32
  {
    Reverse(c)
  }

  lemma {:induction false} RegisterCoef(c: Word, i: nat)
    ensures Coef(Register(c), i) == (i < 32 && c[31 - i])
    ensures Coef(Generator(), i) == (i == 32 || (i < 32 && Poly()[31 - i]))
  {
    hide Poly, Reverse;
    if i < 32 {
      ReverseAt(c, i);
      ReverseAt(Poly(), i);
    }
  }

  /** What the loop divides: the initial register in front of the message, both moved up. */
  function Dividend(c: Word, m: Bits): Bits {
    Add(TimesX(Register(c), |m|), TimesX(Reverse(m), 32))
  }

  lemma {:induction false} DividendCoef(c: Word, m: Bits, i: nat)
    ensures Coef(Dividend(c, m), i)
            == ((|m| <= i < |m| + 32 && c[31 + |m| - i]) != (32 <= i < 32 + |m| && m[|m| + 31 - i]))
  {
    hide Poly, Register, Reverse;
    TimesXCoef(Register(c), |m|, i);
    TimesXCoef(Reverse(m), 32, i);
    if i >= |m| { RegisterCoef(c, i - |m|); }
    if 32 <= i < 32 + |m| { ReverseAt(m, i - 32); }
  }

  /** One more message bit: the dividend is moved up by one and the bit enters at x^32. */
  lemma {:induction false} DividendStep(c: Word, m: Bits, b: bool, i: nat)
    ensures Coef(Dividend(c, m + [b]), i) == ((i > 0 && Coef(Dividend(c, m), i - 1)) != (i == 32 && b))
  {
    DividendCoef(c, m + [b], i);
    if i > 0 { DividendCoef(c, m, i - 1); }
  }

  /** One bit through the register: moved up by one, less the generator if it reached x^32. */
  lemma {:induction false} FeedCoef(c: Word, b: bool, i: nat)
    ensures Coef(Register(Feed(c, b)), i)
            == (i < 32 && ((i > 0 && Coef(Register(c), i - 1)) != ((c[0] != b) && Coef(Generator(), i))))
  {
    hide Poly, Register, Reverse, Generator;
    RegisterCoef(Feed(c, b), i);
    if i > 0 { RegisterCoef(c, i - 1); }
    RegisterCoef(c, i);
    if i < 32 {
      var d := c[0 := c[0] != b];
      var shifted := d[1..] + [false];
      assert shifted[31 - i] == (i > 0 && c[32 - i]);
    }
  }

  lemma {:induction false} NothingFed(c: Word)
    ensures IsRemainder(Register(c), Dividend(c, []))
  {
    hide Dividend, Register, Coef, Generator, Add, TimesGenerator;
    forall i: nat ensures Coef(Add(Dividend(c, []), Register(c)), i) == Coef(TimesGenerator([]), i) {
      DividendOfNothing(c, i);
      ZeroProduct(i);
    }
    assert Same(Add(Dividend(c, []), Register(c)), TimesGenerator([]));
  }

  lemma {:induction false} DividendOfNothing(c: Word, i: nat)
    ensures Coef(Dividend(c, []), i) == Coef(Register(c), i)
  {
    hide Dividend, Register, Coef, Generator, Poly;
    DividendCoef(c, [], i);
    RegisterCoef(c, i);
    assert c[31 + 0 - Min(i, 31)] == c[31 - Min(i, 31)];
  }

  lemma {:induction false} ZeroProduct(i: nat)
    ensures !Coef(TimesGenerator([]), i)
  {
  }

  /** After any message the register holds the remainder of the dividend. */
  lemma {:induction false} RegisterIsRemainder(c: Word, m: Bits)
    ensures IsRemainder(Register(FeedAll(c, m)), Dividend(c, m))
    decreases |m|
  {
    hide Dividend, Register, Feed, TimesGenerator, Add;
    if m == [] {
      NothingFed(c);
    } else {
      var m', b := m[..|m| - 1], m[|m| - 1];
      assert m == m' + [b];
      RegisterIsRemainder(c, m');
      FeedAppend(c, m', [b]);
      var d := FeedAll(c, m');
      assert FeedAll(d, [b]) == Feed(d, b);
      var q :| Same(Add(Dividend(c, m'), Register(d)), TimesGenerator(q));
      RemainderStep(c, m', b, d, q);
    }
  }

  lemma {:induction false} TimesGeneratorCoef(b: bool, q: Bits, i: nat)
    ensures Coef(TimesGenerator([b] + q), i) == ((b && Coef(Generator(), i)) != (i > 0 && Coef(TimesGenerator(q), i - 1)))
  {
    hide Generator;
    assert ([b] + q)[1..] == q;
    TimesXCoef(TimesGenerator(q), 1, i);
  }

  lemma {:induction false} RemainderStepAt(c: Word, m: Bits, b: bool, d: Word, q: Bits, i: nat)
    requires i > 0 ==> (Coef(Dividend(c, m), i - 1) != Coef(Register(d), i - 1)) == Coef(TimesGenerator(q), i - 1)
    ensures (Coef(Dividend(c, m + [b]), i) != Coef(Register(Feed(d, b)), i)) == Coef(TimesGenerator([d[0] != b] + q), i)
  {
    hide *;
    DividendStep(c, m, b, i);
    FeedCoef(d, b, i);
    RegisterCoef(d, i);
    if i > 0 { RegisterCoef(d, i - 1); }
    TimesGeneratorCoef(d[0] != b, q, i);
  }

  lemma {:induction false} RemainderStep(c: Word, m: Bits, b: bool, d: Word, q: Bits)
    requires Same(Add(Dividend(c, m), Register(d)), TimesGenerator(q))
    ensures IsRemainder(Register(Feed(d, b)), Dividend(c, m + [b]))
  {
    hide Dividend, Register, Feed, Generator, Coef, TimesGenerator, Add;
    var next := [d[0] != b] + q;
    forall i: nat ensures Coef(Add(Dividend(c, m + [b]), Register(Feed(d, b))), i) == Coef(TimesGenerator(next), i) {
      if i > 0 { assert Coef(Add(Dividend(c, m), Register(d)), i - 1) == Coef(TimesGenerator(q), i - 1); }
      RemainderStepAt(c, m, b, d, q, i);
    }
    assert Same(Add(Dividend(c, m + [b]), Register(Feed(d, b))), TimesGenerator(next));
  }

  lemma {:induction false} GeneratorDegree(i: nat)
    requires i >= 32
    ensures Coef(Generator(), i) == (i == 32)
  {
    hide Generator, Coef;
    RegisterCoef(Zeros(32), i);
  }

  /** A nonzero multiple of the generator reaches x^32 or beyond. */
  lemma {:induction false} MultipleDegree(q: Bits, k: nat)
    requires k < |q| && q[k] && forall j :: k < j < |q| ==> !q[j]
    ensures Coef(TimesGenerator(q), k + 32) && forall i: nat :: i > k + 32 ==> !Coef(TimesGenerator(q), i)
    decreases k
  {
    hide Generator, TimesGenerator;
    if k == 0 {
      ZeroMultiple(q[1..]);
    } else {
      MultipleDegree(q[1..], k - 1);
    }
    forall i: nat | i >= k + 32 ensures Coef(TimesGenerator(q), i) == (i == k + 32) {
      MultipleCoef(q, i);
      GeneratorDegree(i);
    }
  }

  lemma {:induction false} ZeroMultiple(q: Bits)
    requires forall j :: 0 <= j < |q| ==> !q[j]
    ensures forall i: nat :: !Coef(TimesGenerator(q), i)
  {
    if q != [] {
      ZeroMultiple(q[1..]);
      forall i: nat ensures !Coef(TimesGenerator(q), i) { TimesXCoef(TimesGenerator(q[1..]), 1, i); }
    }
  }

  function TopBit(q: Bits): (k: nat)
    requires exists j :: 0 <= j < |q| && q[j]
    ensures k < |q| && q[k] && forall j :: k < j < |q| ==> !q[j]
  {
    if q[|q| - 1] then |q| - 1 else TopBit(q[..|q| - 1])
  }

  function Tail(q: Bits): Bits { if q == [] then [] else q[1..] }

  lemma {:induction false} MultipleCoef(q: Bits, i: nat)
    ensures Coef(TimesGenerator(q), i) == ((Coef(q, 0) && Coef(Generator(), i)) != (i > 0 && Coef(TimesGenerator(Tail(q)), i - 1)))
  {
    hide Generator;
    if q != [] {
      assert q == [q[0]] + q[1..];
      TimesGeneratorCoef(q[0], q[1..], i);
    }
  }

  lemma {:induction false} TailOfSum(q: Bits, p: Bits)
    ensures Tail(Add(q, p)) == Add(Tail(q), Tail(p))
  {
    var a, b := Tail(Add(q, p)), Add(Tail(q), Tail(p));
    forall i | 0 <= i < |a| ensures a[i] == b[i] {
      assert Coef(a, i) == Coef(Add(q, p), i + 1);
      assert Coef(b, i) == (Coef(Tail(q), i) != Coef(Tail(p), i));
    }
  }

  lemma {:induction false} SumOfMultiples(q: Bits, p: Bits)
    ensures Same(Add(TimesGenerator(q), TimesGenerator(p)), TimesGenerator(Add(q, p)))
    decreases |q| + |p|
  {
    hide Generator, TimesGenerator, Tail, Coef;
    if q == [] && p == [] {
      NoMultiple();
    } else {
      TailShorter(q, p);
      SumOfMultiples(Tail(q), Tail(p));
      TailOfSum(q, p);
      forall i: nat ensures Coef(Add(TimesGenerator(q), TimesGenerator(p)), i) == Coef(TimesGenerator(Add(q, p)), i) {
        MultipleCoef(q, i);
        MultipleCoef(p, i);
        MultipleCoef(Add(q, p), i);
        if i > 0 {
          assert Coef(Add(TimesGenerator(Tail(q)), TimesGenerator(Tail(p))), i - 1)
              == Coef(TimesGenerator(Add(Tail(q), Tail(p))), i - 1);
        }
      }
    }
  }

  lemma {:induction false} TailShorter(q: Bits, p: Bits)
    requires q != [] || p != []
    ensures |Tail(q)| + |Tail(p)| < |q| + |p|
  {
  }

  lemma {:induction false} NoMultiple()
    ensures Same(Add(TimesGenerator([]), TimesGenerator([])), TimesGenerator(Add([], [])))
  {
  }

  /** There is but one remainder of 32 bits. */
  lemma {:induction false} RemainderUnique(r: Bits, s: Bits, a: Bits)
    requires IsRemainder(r, a) && IsRemainder(s, a)
    ensures Same(r, s)
  {
    var q :| Same(Add(a, r), TimesGenerator(q));
    var p :| Same(Add(a, s), TimesGenerator(p));
    SumOfMultiples(q, p);
    var d := Add(q, p);
    forall i: nat ensures Coef(TimesGenerator(d), i) == (Coef(r, i) != Coef(s, i)) {
      assert Coef(Add(a, r), i) == Coef(TimesGenerator(q), i);
      assert Coef(Add(a, s), i) == Coef(TimesGenerator(p), i);
      assert Coef(Add(TimesGenerator(q), TimesGenerator(p)), i) == Coef(TimesGenerator(d), i);
    }
    if exists j :: 0 <= j < |d| && d[j] {
      var top := TopBit(d);
      assert !Coef(r, top + 32) && !Coef(s, top + 32);
      MultipleDegree(d, top);
    } else {
      ZeroMultiple(d);
    }
  }

  /** The checksum is the complemented remainder of the message, 32 ones put before it and
      32 zeros behind, both reflected: section 3.2.9 of IEEE 802.3. */
  lemma {:induction false} ChecksumIsRemainder(s: seq<byte>)
    ensures IsRemainder(Register(Updates(Ones(32), s)), Dividend(Ones(32), Stream(s)))
    ensures forall r: Word :: IsRemainder(Register(r), Dividend(Ones(32), Stream(s))) ==> Checksum(s) == FromBits(Not(r))
  {
    hide Dividend;
    UpdatesFeed(Ones(32), s);
    RegisterIsRemainder(Ones(32), Stream(s));
    var c := Updates(Ones(32), s);
    forall r: Word | IsRemainder(Register(r), Dividend(Ones(32), Stream(s))) ensures r == c {
      RemainderUnique(Register(r), Register(c), Dividend(Ones(32), Stream(s)));
      forall i | 0 <= i < 32 ensures r[i] == c[i] {
        RegisterCoef(r, 31 - i);
        RegisterCoef(c, 31 - i);
      }
    }
  }

  lemma {:induction false} ChecksumBound(s: seq<byte>)
    ensures Checksum(s) < TWO32 == Pow256(4)
  {
    hide FromBits, Updates;
    FromBitsBound(Not(Updates(Ones(32), s)));
    assert Pow2(8) == 256;
    Pow2Sum(8, 8);
    Pow2Sum(16, 16);
  }
}
