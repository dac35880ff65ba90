/** Types and small facts shared by every component of the model. */
module Common {

  datatype Option<+T> = None | Some(value: T)

  /** An unsigned octet. */
  type byte = x: int | 0 <= x < 256

  const TWO32: int := 0x1_0000_0000

  function Min(a: int, b: int): int { if a < b then a else b }

  function Max(a: int, b: int): int { if a < b then b else a }

  function Abs(a: int): int { if a < 0 then -a else a }

  function Reverse<T>(s: seq<T>): (r: seq<T>)
    ensures |r| == |s|
  {
    if s == [] then [] else Reverse(s[1..]) + [s[0]]
  }

  lemma {:induction false} ReverseAppend<T>(s: seq<T>, x: T)
    ensures Reverse(s + [x]) == [x] + Reverse(s)
  {
    if s != [] {
      ReverseAppend(s[1..], x);
      assert (s + [x])[1..] == s[1..] + [x];
    }
  }

  /** The token, byte or character pattern `p` stands in `s` at position `i`. */
  predicate Occurs<T(==)>(s: seq<T>, i: nat, p: seq<T>) {
    i + |p| <= |s| && s[i..i + |p|] == p
  }

  lemma {:induction false} OccursSplit<T>(s: seq<T>, i: nat, a: seq<T>, b: seq<T>)
    requires Occurs(s, i, a + b)
    ensures Occurs(s, i, a) && Occurs(s, i + |a|, b)
  {
    assert s[i..i + |a|] == (a + b)[..|a|];
    assert s[i + |a|..i + |a| + |b|] == (a + b)[|a|..];
  }

  // ---- little-endian numbers ----

  /** Little-endian number of n bytes at an offset. */
  function Le(b: seq<byte>, off: nat, n: nat): nat
    requires off + n <= |b|
    decreases n
  {
    if n == 0 then 0 else b[off] + 256 * Le(b, off + 1, n - 1)
  }

  function LeBytes(v: nat, n: nat): (r: seq<byte>)
    ensures |r| == n
    decreases n
  {
    if n == 0 then [] else [v % 256] + LeBytes(v / 256, n - 1)
  }

  function Pow256(n: nat): (p: nat)
    ensures p >= 1
  {
    if n == 0 then 1 else 256 * Pow256(n - 1)
  }

  lemma {:induction false} LeSame(b: seq<byte>, off: nat, c: seq<byte>, off': nat, n: nat)
    requires off + n <= |b| && off' + n <= |c| && b[off..off + n] == c[off'..off' + n]
    ensures Le(b, off, n) == Le(c, off', n)
    decreases n
  {
    if n > 0 {
      assert b[off] == b[off..off + n][0] && c[off'] == c[off'..off' + n][0];
      assert b[off + 1..off + n] == b[off..off + n][1..] && c[off' + 1..off' + n] == c[off'..off' + n][1..];
      LeSame(b, off + 1, c, off' + 1, n - 1);
    }
  }

  lemma {:induction false} LeOfBytes(b: seq<byte>, off: nat, v: nat, n: nat)
    requires off + n <= |b| && b[off..off + n] == LeBytes(v, n) && v < Pow256(n)
    ensures Le(b, off, n) == v
    decreases n
  {
    if n > 0 {
      assert b[off] == b[off..off + n][0];
      assert b[off + 1..off + n] == b[off..off + n][1..];
      LeOfBytes(b, off + 1, v / 256, n - 1);
    }
  }

  lemma {:induction false} BytesOfLe(b: seq<byte>, off: nat, n: nat)
    requires off + n <= |b|
    ensures LeBytes(Le(b, off, n), n) == b[off..off + n] && Le(b, off, n) < Pow256(n)
    decreases n
  {
    if n > 0 {
      hide Le, LeBytes;
      BytesOfLe(b, off + 1, n - 1);
      LeFirst(b, off, n);
      LeBytesFirst(b[off], Le(b, off + 1, n - 1), n);
      assert b[off..off + n] == [b[off]] + b[off + 1..off + n];
    } else {
      NoBytes(b, off);
    }
  }

  lemma {:induction false} NoBytes(b: seq<byte>, off: nat)
    requires off <= |b|
    ensures Le(b, off, 0) == 0 && LeBytes(0, 0) == [] == b[off..off + 0]
  {
  }

  lemma {:induction false} LeFirst(b: seq<byte>, off: nat, n: nat)
    requires 0 < n && off + n <= |b|
    ensures Le(b, off, n) == b[off] + 256 * Le(b, off + 1, n - 1)
  {
  }

  lemma {:induction false} LeBytesFirst(x: byte, v: nat, n: nat)
    requires 0 < n
    ensures LeBytes(x + 256 * v, n) == [x] + LeBytes(v, n - 1)
  {
    LowDigit(x, v);
  }

  lemma {:induction false} LowDigit(x: byte, v: nat)
    ensures (x + 256 * v) % 256 == x && (x + 256 * v) / 256 == v
  {
  }

  // ---- powers ----

  function Pow2(k: nat): (p: nat)
    ensures p >= 1
  {
    if k == 0 then 1 else 2 * Pow2(k - 1)
  }

  lemma {:induction false} Pow2Sum(a: nat, b: nat)
    ensures Pow2(a + b) == Pow2(a) * Pow2(b)
  {
    if a > 0 { Pow2Sum(a - 1, b); }
  }

  lemma {:induction false} MulMono(a: nat, b: nat, c: nat, d: nat)
    requires a <= c && b <= d
    ensures a * b <= c * d
  {
    assert a * b <= c * b;
    assert c * b <= c * d;
  }
}
