/** Rust's `str` as its bytes: what `from_utf8` takes, where a slice may be cut,
    and what `trim` removes. */
module Text {
  import opened Prelude

  // ------------------------------------------------------------ UTF-8

  predicate Continues(b: byte) {
    0x80 <= b < 0xC0
  }

  /** How many bytes the character at the front takes, nought if there is none. */
  function CharLen(t: seq<byte>): (n: nat)
    ensures n <= |t| && n <= 4
  {
    if t == [] then 0
    else if t[0] < 0x80 then 1
    else if |t| < 2 || !SecondFits(t[0], t[1]) then 0
    else if t[0] < 0xE0 then 2
    else if |t| < 3 || !Continues(t[2]) then 0
    else if t[0] < 0xF0 then 3
    else if |t| < 4 || !Continues(t[3]) then 0
    else 4
  }

  /** The second byte a leading byte allows. */
  predicate SecondFits(a: byte, b: byte) {
    if a == 0xE0 then 0xA0 <= b < 0xC0
    else if a == 0xED then 0x80 <= b < 0xA0
    else if a == 0xF0 then 0x90 <= b < 0xC0
    else if a == 0xF4 then 0x80 <= b < 0x90
    else 0xC2 <= a < 0xF4 && Continues(b)
  }

  /** What text is made of: code points without the surrogates. */
  predicate Scalar(c: nat) {
    c < 0xD800 || 0xE000 <= c < 0x11_0000
  }

  /** A code point in UTF-8 (RFC 3629, section 3). */
  function Encoded(c: nat): (b: seq<byte>)
    requires Scalar(c)
  {
    if c < 0x80 then [c]
    else if c < 0x800 then [0xC0 + c / 64, 0x80 + c % 64]
    else if c < 0x1_0000 then [0xE0 + c / 4096, 0x80 + c / 64 % 64, 0x80 + c % 64]
    else [0xF0 + c / 262144, 0x80 + c / 4096 % 64, 0x80 + c / 64 % 64, 0x80 + c % 64]
  }

  /** Bytes that follow carry six bits each. */
  function Joined(high: int, low: int): int {
    64 * high + (low - 0x80)
  }

  /** The code point at the front. */
  function CodePoint(t: seq<byte>): int
    requires CharLen(t) > 0
  {
    var a: int := t[0];
    if CharLen(t) == 1 then a
    else if CharLen(t) == 2 then Joined(a - 0xC0, t[1])
    else if CharLen(t) == 3 then Joined(Joined(a - 0xE0, t[1]), t[2])
    else Joined(Joined(Joined(a - 0xF0, t[1]), t[2]), t[3])
  }

  lemma JoinedSplits(high: nat, low: byte)
    requires Continues(low)
    ensures Joined(high, low) >= 0 && Joined(high, low) / 64 == high && 0x80 + Joined(high, low) % 64 == low
  {
  }

  lemma SplitJoins(c: nat)
    ensures Continues(0x80 + c % 64) && Joined(c / 64, 0x80 + c % 64) == c
  {
  }

  lemma TwoIsEncoded(t: seq<byte>)
    requires CharLen(t) == 2
    ensures Scalar(CodePoint(t)) && t[..2] == Encoded(CodePoint(t))
  {
    var a: int := t[0];
    JoinedSplits(a - 0xC0, t[1]);
  }

  lemma ThreeIsEncoded(t: seq<byte>)
    requires CharLen(t) == 3
    ensures Scalar(CodePoint(t)) && t[..3] == Encoded(CodePoint(t))
  {
    var a: int := t[0];
    var high := Joined(a - 0xE0, t[1]);
    JoinedSplits(a - 0xE0, t[1]);
    JoinedSplits(high, t[2]);
    var c := CodePoint(t);
    assert c / 64 == high && c / 4096 == high / 64;
  }

  lemma FourIsEncoded(t: seq<byte>)
    requires CharLen(t) == 4
    ensures Scalar(CodePoint(t)) && t[..4] == Encoded(CodePoint(t))
  {
    var a: int := t[0];
    var top := Joined(a - 0xF0, t[1]);
    var high := Joined(top, t[2]);
    JoinedSplits(a - 0xF0, t[1]);
    JoinedSplits(top, t[2]);
    JoinedSplits(high, t[3]);
    var c := CodePoint(t);
    assert c / 64 == high && c / 4096 == high / 64 == top && c / 262144 == top / 64;
  }

  lemma CharIsEncoded(t: seq<byte>)
    requires CharLen(t) > 0
    ensures Scalar(CodePoint(t)) && t[..CharLen(t)] == Encoded(CodePoint(t))
  {
    if CharLen(t) == 2 {
      TwoIsEncoded(t);
    } else if CharLen(t) == 3 {
      ThreeIsEncoded(t);
    } else if CharLen(t) == 4 {
      FourIsEncoded(t);
    }
  }

  lemma ThreeIsChar(c: nat, t: seq<byte>)
    requires Scalar(c) && 0x800 <= c < 0x1_0000 && Encoded(c) <= t
    ensures CharLen(t) == 3 && CodePoint(t) == c
  {
    assert t[0] == Encoded(c)[0] && t[1] == Encoded(c)[1] && t[2] == Encoded(c)[2];
    assert c / 64 / 64 == c / 4096;
    SplitJoins(c / 64);
    SplitJoins(c);
  }

  lemma FourIsChar(c: nat, t: seq<byte>)
    requires Scalar(c) && 0x1_0000 <= c && Encoded(c) <= t
    ensures CharLen(t) == 4 && CodePoint(t) == c
  {
    assert t[0] == Encoded(c)[0] && t[1] == Encoded(c)[1] && t[2] == Encoded(c)[2] && t[3] == Encoded(c)[3];
    assert c / 64 / 64 == c / 4096 && c / 4096 / 64 == c / 262144;
    SplitJoins(c / 4096);
    SplitJoins(c / 64);
    SplitJoins(c);
  }

  lemma EncodedIsChar(c: nat, t: seq<byte>)
    requires Scalar(c) && Encoded(c) <= t
    ensures CharLen(t) == |Encoded(c)| && CodePoint(t) == c
  {
    if c < 0x80 {
      assert t[0] == Encoded(c)[0];
    } else if c < 0x800 {
      assert t[0] == Encoded(c)[0] && t[1] == Encoded(c)[1];
      SplitJoins(c);
    } else if c < 0x1_0000 {
      ThreeIsChar(c, t);
    } else {
      FourIsChar(c, t);
    }
  }

  /** A character at the front is a code point's encoding, and no other bytes are one. */
  lemma CharExactlyWhen(t: seq<byte>, c: nat)
    requires Scalar(c)
    ensures CharLen(t) > 0 && CodePoint(t) == c <==> Encoded(c) <= t
  {
    if CharLen(t) > 0 && CodePoint(t) == c {
      CharIsEncoded(t);
    }
    if Encoded(c) <= t {
      EncodedIsChar(c, t);
    }
  }

  predicate Utf8(t: seq<byte>) {
    t == [] || (CharLen(t) > 0 && Utf8(t[CharLen(t)..]))
  }

  /** `is_char_boundary`. */
  predicate Boundary(t: seq<byte>, i: nat) {
    i == 0 || i == |t| || (i < |t| && !Continues(t[i]))
  }

  lemma FrontOfChar(t: seq<byte>, i: nat)
    requires CharLen(t) > 0 && 0 < i <= |t|
    ensures i < CharLen(t) ==> CharLen(t[..i]) == 0 && Continues(t[i])
    ensures i >= CharLen(t) ==> CharLen(t[..i]) == CharLen(t)
  {
  }

  /** Text may be cut exactly where both parts are text. */
  lemma {:induction false} BoundaryExactlyWhenText(t: seq<byte>, i: nat)
    requires Utf8(t) && i <= |t|
    ensures Boundary(t, i) <==> Utf8(t[..i])
    ensures Boundary(t, i) <==> Utf8(t[i..])
  {
    if 0 < i {
      var n := CharLen(t);
      FrontOfChar(t, i);
      if i < n {
        assert CharLen(t[i..]) == 0;
      } else {
        var k := i - n;
        BoundaryExactlyWhenText(t[n..], k);
        assert t[..i][n..] == t[n..][..k] && t[n..][k..] == t[i..];
        CutAfterFirst(t, n, i, k);
      }
    }
  }

  lemma CutAfterFirst(t: seq<byte>, n: nat, i: nat, k: nat)
    requires Utf8(t) && t != [] && n == CharLen(t) && n <= i <= |t| && k == i - n
    ensures Boundary(t, i) <==> Boundary(t[n..], k)
  {
    if k == 0 && i < |t| {
      assert t[n..][0] == t[i];
    }
  }

  lemma SameChar(a: seq<byte>, b: seq<byte>)
    requires CharLen(a) > 0
    ensures CharLen(a + b) == CharLen(a)
  {
  }

  lemma DropInFront(a: seq<byte>, b: seq<byte>, n: nat)
    requires n <= |a|
    ensures (a + b)[n..] == a[n..] + b
  {
  }

  lemma CharThenText(t: seq<byte>, n: nat, rest: seq<byte>)
    requires 0 < n == CharLen(t) && t[n..] == rest && Utf8(rest)
    ensures Utf8(t)
  {
  }

  lemma {:induction false} TextAfterText(a: seq<byte>, b: seq<byte>)
    requires Utf8(a) && Utf8(b)
    ensures Utf8(a + b)
  {
    if a == [] {
      assert a + b == b;
    } else {
      var n := CharLen(a);
      SameChar(a, b);
      TextAfterText(a[n..], b);
      DropInFront(a, b, n);
      CharThenText(a + b, n, a[n..] + b);
    }
  }

  predicate Ascii(t: seq<byte>) {
    forall i :: 0 <= i < |t| ==> t[i] < 128
  }

  lemma {:induction false} AsciiIsText(t: seq<byte>)
    requires Ascii(t)
    ensures Utf8(t)
  {
    if t != [] {
      AsciiIsText(t[1..]);
    }
  }

  // ------------------------------------------------------------ white space

  /** White space of one byte. */
  predicate Space(b: byte) {
    9 <= b <= 13 || b == 32
  }

  predicate Space2(a: byte, b: byte) {
    a == 0xC2 && (b == 0x85 || b == 0xA0)
  }

  predicate Space3(a: byte, b: byte, c: byte) {
    || (a == 0xE1 && b == 0x9A && c == 0x80)
    || (a == 0xE2 && b == 0x80 && (0x80 <= c <= 0x8A || c == 0xA8 || c == 0xA9 || c == 0xAF))
    || (a == 0xE2 && b == 0x81 && c == 0x9F)
    || (a == 0xE3 && b == 0x80 && c == 0x80)
  }

  /** How many bytes the white space at the front takes (`char::is_whitespace`), nought if there is none. */
  function SpaceAhead(t: seq<byte>): (n: nat)
    ensures n <= |t| && n <= 3
  {
    if |t| >= 1 && Space(t[0]) then 1
    else if |t| >= 2 && Space2(t[0], t[1]) then 2
    else if |t| >= 3 && Space3(t[0], t[1], t[2]) then 3
    else 0
  }

  /** Unicode's White_Space. */
  predicate White(c: int) {
    || 9 <= c <= 13 || c == 0x20 || c == 0x85 || c == 0xA0 || c == 0x1680 || 0x2000 <= c <= 0x200A
    || c == 0x2028 || c == 0x2029 || c == 0x202F || c == 0x205F || c == 0x3000
  }

  /** White space at the front is a character whose code point is white space. */
  lemma SpaceExactlyWhen(t: seq<byte>)
    ensures SpaceAhead(t) > 0 <==> CharLen(t) > 0 && White(CodePoint(t))
    ensures SpaceAhead(t) > 0 ==> SpaceAhead(t) == CharLen(t)
  {
  }

  function SpaceBehind(t: seq<byte>): (n: nat)
    ensures n <= |t| && n <= 3
  {
    var l := |t|;
    if l >= 1 && Space(t[l - 1]) then 1
    else if l >= 2 && Space2(t[l - 2], t[l - 1]) then 2
    else if l >= 3 && Space3(t[l - 3], t[l - 2], t[l - 1]) then 3
    else 0
  }

  function TrimStart(t: seq<byte>): seq<byte> {
    if SpaceAhead(t) > 0 then TrimStart(t[SpaceAhead(t)..]) else t
  }

  function TrimEnd(t: seq<byte>): seq<byte> {
    if SpaceBehind(t) > 0 then TrimEnd(t[..|t| - SpaceBehind(t)]) else t
  }

  function Trim(t: seq<byte>): seq<byte> {
    TrimEnd(TrimStart(t))
  }

  /** White space, character by character. */
  predicate Blank(t: seq<byte>) {
    t == [] || (SpaceAhead(t) > 0 && Blank(t[SpaceAhead(t)..]))
  }

  lemma SpaceIsChar(t: seq<byte>)
    requires SpaceAhead(t) > 0
    ensures CharLen(t) == SpaceAhead(t)
  {
  }

  lemma {:induction false} BlankIsText(t: seq<byte>)
    requires Blank(t)
    ensures Utf8(t)
  {
    if t != [] {
      SpaceIsChar(t);
      BlankIsText(t[SpaceAhead(t)..]);
    }
  }

  /** A byte that is text of its own and no white space. */
  predicate Solid(b: byte) {
    b < 128 && !Space(b)
  }

  lemma {:induction false} StartTrimmed(before: seq<byte>, t: seq<byte>)
    requires t != [] && Solid(t[0]) && Blank(before)
    ensures TrimStart(before + t) == t
  {
    if before == [] {
      assert before + t == t;
    } else {
      var n := SpaceAhead(before);
      assert (before + t)[n..] == before[n..] + t;
      StartTrimmed(before[n..], t);
    }
  }

  lemma SpaceAlone(t: seq<byte>)
    requires t != [] && SpaceAhead(t) == |t|
    ensures SpaceBehind(t) == |t|
  {
  }

  lemma SameBehind(a: seq<byte>, b: seq<byte>)
    requires SpaceBehind(b) > 0
    ensures SpaceBehind(a + b) == SpaceBehind(b)
  {
  }

  /** White space read from its end is white space. */
  lemma {:induction false} BlankBehind(t: seq<byte>)
    requires Blank(t) && t != []
    ensures SpaceBehind(t) > 0 && Blank(t[..|t| - SpaceBehind(t)])
    decreases |t|
  {
    var n := SpaceAhead(t);
    if n == |t| {
      SpaceAlone(t);
    } else {
      var rest := t[n..];
      BlankBehind(rest);
      assert t == t[..n] + rest;
      SameBehind(t[..n], rest);
      var kept := t[..|t| - SpaceBehind(t)];
      assert kept[n..] == rest[..|rest| - SpaceBehind(rest)];
      assert SpaceAhead(kept) == n;
    }
  }

  lemma DropBehind(a: seq<byte>, b: seq<byte>, n: nat)
    requires n <= |b|
    ensures (a + b)[..|a| + n] == a + b[..n]
  {
  }

  lemma TrimEndNext(t: seq<byte>, n: nat)
    requires SpaceBehind(t) > 0 && n == |t| - SpaceBehind(t)
    ensures TrimEnd(t) == TrimEnd(t[..n])
  {
  }

  lemma {:induction false} EndTrimmed(t: seq<byte>, after: seq<byte>)
    requires t != [] && Solid(t[|t| - 1]) && Blank(after)
    ensures TrimEnd(t + after) == t
    decreases |after|
  {
    if after == [] {
      assert t + after == t;
    } else {
      var n := |after| - SpaceBehind(after);
      BlankBehind(after);
      SameBehind(t, after);
      EndTrimmed(t, after[..n]);
      DropBehind(t, after, n);
      TrimEndNext(t + after, |t| + n);
    }
  }

  /** Trimming takes exactly the white space around solid text. */
  lemma TrimmedAround(before: seq<byte>, t: seq<byte>, after: seq<byte>)
    requires t != [] && Solid(t[0]) && Solid(t[|t| - 1]) && Blank(before) && Blank(after)
    ensures Trim(before + t + after) == t
  {
    Regroup(before, t, after);
    var rest := t + after;
    assert rest[0] == t[0];
    StartTrimmed(before, rest);
    EndTrimmed(t, after);
  }

  lemma AheadIsSpace(t: seq<byte>, b: byte)
    requires Solid(b)
    ensures b in t[SpaceAhead(t)..] <==> b in t
  {
    var n := SpaceAhead(t);
    assert t == t[..n] + t[n..];
  }

  lemma BehindIsSpace(t: seq<byte>, b: byte)
    requires Solid(b)
    ensures b in t[..|t| - SpaceBehind(t)] <==> b in t
  {
    var n := |t| - SpaceBehind(t);
    assert t == t[..n] + t[n..];
  }

  lemma {:induction false} StartKeeps(t: seq<byte>, b: byte)
    requires Solid(b)
    ensures b in TrimStart(t) <==> b in t
  {
    if SpaceAhead(t) > 0 {
      AheadIsSpace(t, b);
      StartKeeps(t[SpaceAhead(t)..], b);
    }
  }

  lemma {:induction false} EndKeeps(t: seq<byte>, b: byte)
    requires Solid(b)
    ensures b in TrimEnd(t) <==> b in t
  {
    if SpaceBehind(t) > 0 {
      BehindIsSpace(t, b);
      EndKeeps(t[..|t| - SpaceBehind(t)], b);
    }
  }

  lemma TrimKeeps(t: seq<byte>, b: byte)
    requires Solid(b)
    ensures b in Trim(t) <==> b in t
  {
    StartKeeps(t, b);
    EndKeeps(TrimStart(t), b);
  }

  // ------------------------------------------------------------ what is trimmed

  lemma SameAhead(a: seq<byte>, b: seq<byte>)
    requires SpaceAhead(a) > 0
    ensures SpaceAhead(a + b) == SpaceAhead(a)
  {
  }

  lemma BlankFrom(t: seq<byte>, n: nat, rest: seq<byte>)
    requires 0 < n == SpaceAhead(t) && t[n..] == rest && Blank(rest)
    ensures Blank(t)
  {
  }

  lemma {:induction false} BlankAfterBlank(a: seq<byte>, b: seq<byte>)
    requires Blank(a) && Blank(b)
    ensures Blank(a + b)
  {
    if a == [] {
      assert a + b == b;
    } else {
      var n := SpaceAhead(a);
      SameAhead(a, b);
      BlankAfterBlank(a[n..], b);
      DropInFront(a, b, n);
      BlankFrom(a + b, n, a[n..] + b);
    }
  }

  lemma SpaceIsBlank(t: seq<byte>)
    requires SpaceAhead(t) == |t|
    ensures Blank(t)
  {
  }

  lemma AheadIsBlank(t: seq<byte>, n: nat)
    requires n == SpaceAhead(t)
    ensures Blank(t[..n])
  {
    SpaceIsBlank(t[..n]);
  }

  lemma Rejoined(t: seq<byte>, n: nat, rest: seq<byte>, kept: seq<byte>)
    requires n <= |t| && t[n..] == rest + kept
    ensures t == (t[..n] + rest) + kept
  {
  }

  lemma {:induction false} StartSplits(t: seq<byte>) returns (before: seq<byte>)
    ensures t == before + TrimStart(t) && Blank(before) && SpaceAhead(TrimStart(t)) == 0
  {
    var n := SpaceAhead(t);
    before := [];
    if n > 0 {
      var rest := StartSplits(t[n..]);
      AheadIsBlank(t, n);
      BlankAfterBlank(t[..n], rest);
      before := t[..n] + rest;
      Rejoined(t, n, rest, TrimStart(t));
    }
  }

  lemma BehindIsBlank(t: seq<byte>, n: nat)
    requires n == |t| - SpaceBehind(t)
    ensures Blank(t[n..])
  {
    var last := t[n..];
    assert |last| == SpaceBehind(t);
    SpaceIsBlank(last);
  }

  lemma Regrouped(t: seq<byte>, n: nat, kept: seq<byte>, rest: seq<byte>)
    requires n <= |t| && t[..n] == kept + rest
    ensures t == kept + (rest + t[n..])
  {
  }

  lemma {:induction false} EndSplits(t: seq<byte>) returns (after: seq<byte>)
    ensures t == TrimEnd(t) + after && Blank(after) && SpaceBehind(TrimEnd(t)) == 0
    decreases |t|
  {
    var n := |t| - SpaceBehind(t);
    after := [];
    if n < |t| {
      var rest := EndSplits(t[..n]);
      BehindIsBlank(t, n);
      BlankAfterBlank(rest, t[n..]);
      after := rest + t[n..];
      Regrouped(t, n, TrimEnd(t), rest);
    }
  }

  lemma Regroup(a: seq<byte>, b: seq<byte>, c: seq<byte>)
    ensures a + (b + c) == a + b + c
  {
  }

  lemma FrontNoSpace(s: seq<byte>, front: seq<byte>, back: seq<byte>)
    requires s == front + back && SpaceAhead(s) == 0
    ensures SpaceAhead(front) == 0
  {
  }

  /** Trimming takes white space off both ends and leaves none there. */
  lemma TrimSplits(t: seq<byte>) returns (before: seq<byte>, after: seq<byte>)
    ensures t == before + Trim(t) + after && Blank(before) && Blank(after)
    ensures SpaceAhead(Trim(t)) == 0 && SpaceBehind(Trim(t)) == 0
  {
    before := StartSplits(t);
    var s := TrimStart(t);
    after := EndSplits(s);
    FrontNoSpace(s, Trim(t), after);
    Regroup(before, Trim(t), after);
  }

  lemma {:induction false} StartIsText(t: seq<byte>)
    requires Utf8(t)
    ensures Utf8(TrimStart(t))
  {
    if SpaceAhead(t) > 0 {
      SpaceIsChar(t);
      StartIsText(t[SpaceAhead(t)..]);
    }
  }

  lemma BehindIsBoundary(t: seq<byte>)
    requires Utf8(t)
    ensures Boundary(t, |t| - SpaceBehind(t))
  {
  }

  lemma {:induction false} EndIsText(t: seq<byte>)
    requires Utf8(t)
    ensures Utf8(TrimEnd(t))
  {
    var n := |t| - SpaceBehind(t);
    if n < |t| {
      BehindIsBoundary(t);
      BoundaryExactlyWhenText(t, n);
      EndIsText(t[..n]);
    }
  }

  lemma TrimIsText(t: seq<byte>)
    requires Utf8(t)
    ensures Utf8(Trim(t))
  {
    StartIsText(t);
    EndIsText(TrimStart(t));
  }
}
