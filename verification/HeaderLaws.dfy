/**
 What the HTTP reader takes from a header, told on the text of the header: where it ends,
 the length it names and whether it asks to close, in whatever case the names are written.
 */
module HeaderLaws {
  import opened Common
  import opened Http

  /** b spells the word, each letter small or capital. */
  predicate Spells(b: seq<byte>, word: string) {
    |b| == |word| && forall k :: 0 <= k < |b| ==> 'a' <= word[k] <= 'z' && (b[k] == word[k] as int || b[k] == word[k] as int - 32)
  }

  predicate Blank(b: seq<byte>) { forall k :: 0 <= k < |b| ==> b[k] == ' ' as int || b[k] == '\t' as int }

  /** The name of a field, in bytes. */
  lemma {:induction false} NamesAre()
    ensures |CONTENT| == 7 && |LENGTH| == 6 && |CONNECTION| == 10 && |CLOSE| == 5
    ensures forall k :: 0 <= k < 7 ==> CONTENT[k] == "content"[k] as int
    ensures forall k :: 0 <= k < 6 ==> LENGTH[k] == "length"[k] as int
    ensures forall k :: 0 <= k < 10 ==> CONNECTION[k] == "connection"[k] as int
    ensures forall k :: 0 <= k < 5 ==> CLOSE[k] == "close"[k] as int
  {
  }

  lemma {:induction false} LettersSpell(b: seq<byte>, i: nat, name: seq<byte>, word: string)
    requires i + |name| <= |b| && |name| == |word| && forall k :: 0 <= k < |name| ==> name[k] == word[k] as int && 'a' <= word[k] <= 'z'
    ensures LettersAt(b, i, name) <==> Spells(b[i..i + |name|], word)
  {
    forall k | 0 <= k < |name| ensures Lower(b[i + k]) == name[k] <==> (b[i + k] == word[k] as int || b[i + k] == word[k] as int - 32) {}
    if Spells(b[i..i + |name|], word) {
      forall k | 0 <= k < |name| ensures Lower(b[i + k]) == name[k] { assert b[i..i + |name|][k] == b[i + k]; }
    }
  }

  lemma {:induction false} SmallLetters()
    ensures forall k :: 0 <= k < 7 ==> 'a' <= "content"[k] <= 'z'
    ensures forall k :: 0 <= k < 6 ==> 'a' <= "length"[k] <= 'z'
    ensures forall k :: 0 <= k < 10 ==> 'a' <= "connection"[k] <= 'z'
  {
  }

  lemma {:induction false} BlanksSkipped(b: seq<byte>, j: nat, n: nat)
    requires j + n <= |b| && Blank(b[j..j + n]) && (j + n < |b| ==> b[j + n] != ' ' as int && b[j + n] != '\t' as int)
    ensures SkipBlanks(b, j) == j + n
    decreases n
  {
    if n > 0 {
      assert b[j] == b[j..j + n][0];
      assert b[j + 1..j + n] == b[j..j + n][1..];
      BlanksSkipped(b, j + 1, n - 1);
    }
  }

  // ---- the length ----

  /** A length line stands at i: the name, a colon. */
  predicate NamesLength(b: seq<byte>, i: nat) {
    i + 15 < |b| && Spells(b[i..i + 7], "content") && b[i + 7] == '-' as int && Spells(b[i + 8..i + 14], "length") && b[i + 14] == ':' as int
  }

  lemma {:induction false} LengthFieldIs(b: seq<byte>, i: nat)
    ensures LengthFieldAt(b, i) <==> NamesLength(b, i)
  {
    hide LettersAt, Spells;
    NamesAre();
    SmallLetters();
    if i + 15 < |b| {
      LettersSpell(b, i, CONTENT, "content");
      LettersSpell(b, i + 8, LENGTH, "length");
    }
  }

  /** The number that counts is the one behind the first length line: after any blanks, up to
      the first character that is no digit, for every number of 64 bits. */
  lemma {:induction false} LengthIs(pre: seq<byte>, name: seq<byte>, blanks: seq<byte>, n: nat, rest: seq<byte>)
    requires |name| == 15 && NamesLength(name + blanks + Decimal(n), 0) && Blank(blanks) && n < WORD
    requires rest == [] || !('0' as int <= rest[0] <= '9' as int)
    requires forall i :: 0 <= i < |pre| ==> !NamesLength(pre + name + blanks + Decimal(n) + rest, i)
    ensures ContentLength(pre + name + blanks + Decimal(n) + rest) == Some(n)
  {
    hide Decimal, LengthFieldAt, NamesLength, SkipBlanks, Digits;
    var b := pre + name + blanks + Decimal(n) + rest;
    forall i | 0 <= i < |pre| ensures !LengthFieldAt(b, i) { LengthFieldIs(b, i); }
    SkipToField(b, 0, |pre|);
    NameMoves(pre, name, blanks, n, rest);
    LengthFieldIs(b, |pre|);
    var j, d := |pre| + 15, Decimal(n);
    assert b[j..j + |blanks|] == blanks;
    assert b[j + |blanks|..j + |blanks| + |d|] == d;
    assert b[j + |blanks|] == d[0];
    BlanksSkipped(b, j, |blanks|);
    if rest != [] { assert b[j + |blanks| + |d|] == rest[0]; }
    DigitsAre(b, j + |blanks|, d, 0);
    ValueOfDecimal(n);
  }

  lemma {:induction false} NameMoves(pre: seq<byte>, name: seq<byte>, blanks: seq<byte>, n: nat, rest: seq<byte>)
    requires |name| == 15 && NamesLength(name + blanks + Decimal(n), 0)
    ensures NamesLength(pre + name + blanks + Decimal(n) + rest, |pre|)
  {
    hide Decimal, Spells;
    var a, b := name + blanks + Decimal(n), pre + name + blanks + Decimal(n) + rest;
    assert b[|pre|..|pre| + 7] == a[0..7] && b[|pre| + 8..|pre| + 14] == a[8..14];
    assert b[|pre| + 7] == a[7] && b[|pre| + 14] == a[14];
  }

  /** Without a length line there is no length. */
  lemma {:induction false} NoLength(b: seq<byte>)
    requires forall i: nat :: !NamesLength(b, i)
    ensures ContentLength(b) == None
  {
    NoLengthFrom(b, 0);
  }

  lemma {:induction false} NoLengthFrom(b: seq<byte>, i: nat)
    requires forall i: nat :: !NamesLength(b, i)
    ensures LengthFrom(b, i) == None
    decreases |b| - i
  {
    hide LengthFieldAt, NamesLength;
    LengthFieldIs(b, i);
    if i + 15 < |b| { NoLengthFrom(b, i + 1); }
  }

  // ---- closing ----

  /** At i the header says "connection: close": the name in any case, a colon and a blank,
      any more blanks, and the word in small letters. */
  ghost predicate SaysClose(b: seq<byte>, i: nat) {
    && i + 12 <= |b| && Spells(b[i..i + 10], "connection") && b[i + 10] == ':' as int && b[i + 11] == ' ' as int
    && CloseFrom(b, i + 12)
  }

  ghost predicate CloseFrom(b: seq<byte>, j: nat) { exists n: nat :: CloseAfter(b, j, n) }

  /** From j on, n blanks and then the word. */
  predicate CloseAfter(b: seq<byte>, j: nat, n: nat) {
    j + n + 5 <= |b| && Blank(b[j..j + n]) && IsClose(b[j + n..j + n + 5])
  }

  predicate IsClose(w: seq<byte>) {
    w == ['c' as int, 'l' as int, 'o' as int, 's' as int, 'e' as int]
  }

  lemma {:induction false} CloseFieldIs(b: seq<byte>, i: nat)
    ensures CloseFieldAt(b, i) <==> SaysClose(b, i)
  {
    hide LettersAt, Spells, SkipBlanks;
    NamesAre();
    SmallLetters();
    if i + 11 < |b| {
      LettersSpell(b, i, CONNECTION, "connection");
      var j := SkipBlanks(b, i + 12);
      SkippedBlank(b, i + 12);
      assert CLOSE == ['c' as int, 'l' as int, 'o' as int, 's' as int, 'e' as int];
      if SaysClose(b, i) {
        var n: nat :| CloseAfter(b, i + 12, n);
        assert b[i + 12 + n] == b[i + 12 + n..i + 12 + n + 5][0];
        BlanksSkipped(b, i + 12, n);
        assert b[j..j + 5] == CLOSE;
      }
      if CloseFieldAt(b, i) {
        var n := j - (i + 12);
        assert i + 12 + n == j;
        assert CloseAfter(b, i + 12, n);
      }
    }
  }

  lemma {:induction false} SkippedBlank(b: seq<byte>, j: nat)
    requires j <= |b|
    ensures Blank(b[j..SkipBlanks(b, j)])
    decreases |b| - j
  {
    if j < |b| && (b[j] == SPACE || b[j] == TAB) {
      SkippedBlank(b, j + 1);
      var e := SkipBlanks(b, j + 1);
      forall k | 0 <= k < e - j ensures b[j..e][k] == ' ' as int || b[j..e][k] == '\t' as int {
        if k > 0 { assert b[j..e][k] == b[j + 1..e][k - 1]; }
      }
    }
  }

  /** A header asks to close exactly when it says so somewhere. */
  lemma {:induction false} CloseIff(b: seq<byte>)
    ensures HasClose(b) <==> exists i: nat :: SaysClose(b, i)
  {
    hide CloseFieldAt, SaysClose;
    if HasClose(b) {
      var i :| 0 <= i < |b| && CloseFieldAt(b, i);
      CloseFieldIs(b, i);
    }
    if exists i: nat :: SaysClose(b, i) {
      var i: nat :| SaysClose(b, i);
      CloseFieldIs(b, i);
      CloseInside(b, i);
    }
  }

  lemma {:induction false} CloseInside(b: seq<byte>, i: nat)
    requires SaysClose(b, i)
    ensures i < |b|
  {
  }

  // ---- the end ----

  /** Lines, each ended by carriage return and line feed. */
  function Lines(ls: seq<seq<byte>>): seq<byte> {
    if ls == [] then [] else ls[0] + [13, 10] + Lines(ls[1..])
  }

  predicate Plain(line: seq<byte>) { line != [] && forall k :: 0 <= k < |line| ==> line[k] != 13 && line[k] != 10 }

  /** A header ends with its first empty line, whatever comes behind it. */
  lemma {:induction false} EmptyLineEnds(ls: seq<seq<byte>>, rest: seq<byte>)
    requires ls != [] && forall i :: 0 <= i < |ls| ==> Plain(ls[i])
    ensures |Lines(ls)| >= 3 && FindEnd(Lines(ls) + [13, 10] + rest, 0) + 4 == |Lines(ls) + [13, 10]|
  {
    hide FindEnd;
    LinesEnd(ls);
    var b, e := Lines(ls) + [13, 10] + rest, |Lines(ls)| - 2;
    assert b[e] == Lines(ls)[e] && b[e + 1] == Lines(ls)[e + 1] && b[e + 2] == 13 && b[e + 3] == 10;
    forall j | 0 <= j < e ensures !EndAt(b, j) {
      NoEmptyLine(ls, j);
      assert j + 2 < |Lines(ls)| && b[j] == Lines(ls)[j] && b[j + 1] == Lines(ls)[j + 1] && b[j + 2] == Lines(ls)[j + 2];
    }
    FirstEnd(b, e);
  }

  lemma {:induction false} FirstEnd(b: seq<byte>, e: nat)
    requires e + 4 <= |b| && b[e] == 13 && b[e + 1] == 10 && b[e + 2] == 13 && b[e + 3] == 10
    requires forall j :: 0 <= j < e ==> !EndAt(b, j)
    ensures FindEnd(b, 0) == e
  {
    assert EndAt(b, e);
  }

  lemma {:induction false} LinesEnd(ls: seq<seq<byte>>)
    requires ls != [] && forall i :: 0 <= i < |ls| ==> Plain(ls[i])
    ensures |Lines(ls)| >= 3 && Lines(ls)[|Lines(ls)| - 2] == 13 && Lines(ls)[|Lines(ls)| - 1] == 10
    decreases |ls|
  {
    assert Plain(ls[0]);
    if |ls| > 1 {
      LinesEnd(ls[1..]);
      var first := ls[0] + [13, 10];
      assert Lines(ls) == first + Lines(ls[1..]);
    } else {
      assert Lines(ls[1..]) == [];
      assert Lines(ls) == ls[0] + [13, 10];
    }
  }

  /** Inside the lines no line end is followed by another. */
  lemma {:induction false} NoEmptyLine(ls: seq<seq<byte>>, j: nat)
    requires ls != [] && (forall i :: 0 <= i < |ls| ==> Plain(ls[i])) && j + 2 < |Lines(ls)|
    ensures !(Lines(ls)[j] == 13 && Lines(ls)[j + 1] == 10 && Lines(ls)[j + 2] == 13)
    decreases |ls|
  {
    assert Plain(ls[0]);
    var n := |ls[0]|;
    var first, more := ls[0] + [13, 10], Lines(ls[1..]);
    assert Lines(ls) == first + more;
    if j >= n + 2 {
      NoEmptyLine(ls[1..], j - n - 2);
      assert Lines(ls)[j] == more[j - n - 2] && Lines(ls)[j + 1] == more[j - n - 1] && Lines(ls)[j + 2] == more[j - n];
    } else if j == n {
      assert Lines(ls)[j + 2] == more[0];
      FirstOfLines(ls[1..]);
    } else if j < n {
      assert Lines(ls)[j] == ls[0][j];
    } else {
      assert Lines(ls)[j] == first[j];
    }
  }

  lemma {:induction false} FirstOfLines(ls: seq<seq<byte>>)
    requires forall i :: 0 <= i < |ls| ==> Plain(ls[i])
    ensures Lines(ls) != [] ==> Lines(ls)[0] != 13
  {
    if ls != [] {
      assert Plain(ls[0]);
      assert Lines(ls)[0] == ls[0][0];
    }
  }

  // ---- the body ----

  /** Bytes are copied up to the number named, if any, and to one below the caller's capacity:
      short of both there is more to come, at the number the body is complete and the rest is
      kept, and at the capacity the buffer is full. */
  lemma {:induction false} CopyIs(out: seq<byte>, length: Option<nat>, rx: seq<byte>, cap: nat)
    requires |out| < cap && (length.Some? ==> |out| <= length.value)
    ensures var room := cap - 1 - |out|;
            var want := if length.Some? then length.value - |out| else |rx|;
            CopyBody(out, length, rx, cap)
            == if |rx| <= room && |rx| <= want then More(out + rx)
               else if want <= room then Complete(out + rx[..want], rx[want..])
               else Full(out + rx[..room])
    decreases |rx|
  {
    if rx == [] {
      assert out + rx == out;
    } else if (length.Some? && |out| >= length.value) || |out| + 1 >= cap {
      assert out + rx[..0] == out && rx[0..] == rx;
    } else {
      CopyIs(out + [rx[0]], length, rx[1..], cap);
      assert out + [rx[0]] + rx[1..] == out + rx;
      forall k: nat | 0 < k <= |rx| ensures out + [rx[0]] + rx[1..][..k - 1] == out + rx[..k] && rx[1..][k - 1..] == rx[k..] {}
    }
  }
}
