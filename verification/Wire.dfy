/** Fixed-width little-endian fields and counted lists, as every binary layout of
    the repository uses them. A parser takes the bytes still unread and returns
    the value with the bytes left after it. */
module Wire {
  import opened Prelude
  import opened Arith

  type u32 = x: int | 0 <= x < 0x1_0000_0000

  type u64 = x: int | 0 <= x < 0x1_0000_0000_0000_0000

  type Parsed<T> = Option<(T, seq<byte>)>

  // ------------------------------------------------------------ integers

  /** `to_le_bytes` of a `w`-byte integer: what does not fit in `w` bytes is
      cut off, as the source's `as` casts cut it. */
  function Le(n: nat, w: nat): (b: seq<byte>)
    ensures |b| == w
  {
    if w == 0 then [] else
      QuotientNonNegative(n, 256);
      [n % 256] + Le(n / 256, w - 1)
  }

  /** `from_le_bytes`. */
  function FromLe(b: seq<byte>): nat {
    if b == [] then 0 else b[0] + 256 * FromLe(b[1..])
  }

  function Width(w: nat): (p: nat)
    ensures p > 0
  {
    if w == 0 then 1 else 256 * Width(w - 1)
  }

  lemma Widths()
    ensures Width(1) == 0x100 && Width(4) == 0x1_0000_0000 && Width(8) == 0x1_0000_0000_0000_0000
  {
    assert Width(4) == 256 * Width(3) == 256 * 256 * Width(2);
    assert Width(8) == 256 * Width(7) == 256 * 256 * Width(6) == 256 * 256 * 256 * Width(5);
  }

  lemma {:induction false} FromLeOfLe(n: nat, w: nat)
    requires n < Width(w)
    ensures FromLe(Le(n, w)) == n
  {
    if w > 0 {
      DivModEq(n, 256);
      FromLeOfLe(n / 256, w - 1);
      assert Le(n, w)[1..] == Le(n / 256, w - 1);
    }
  }

  lemma {:induction false} LeOfFromLe(b: seq<byte>)
    ensures FromLe(b) < Width(|b|)
    ensures Le(FromLe(b), |b|) == b
  {
    if b != [] {
      LeOfFromLe(b[1..]);
      QuotientUnique(FromLe(b), 256, FromLe(b[1..]), b[0]);
    }
  }

  /** `w` bytes, most significant first. */
  function Be(n: nat, w: nat): (b: seq<byte>)
    ensures |b| == w
  {
    if w == 0 then [] else
      QuotientNonNegative(n, 256);
      Be(n / 256, w - 1) + [n % 256]
  }

  function FromBe(b: seq<byte>): nat {
    if b == [] then 0 else 256 * FromBe(b[..|b| - 1]) + b[|b| - 1]
  }

  lemma {:induction false} FromBeOfBe(n: nat, w: nat)
    requires n < Width(w)
    ensures FromBe(Be(n, w)) == n
  {
    if w > 0 {
      DivModEq(n, 256);
      FromBeOfBe(n / 256, w - 1);
      assert Be(n, w)[..w - 1] == Be(n / 256, w - 1);
    }
  }

  lemma {:induction false} BeOfFromBe(b: seq<byte>)
    ensures FromBe(b) < Width(|b|)
    ensures Be(FromBe(b), |b|) == b
  {
    if b != [] {
      var n := |b| - 1;
      BeOfFromBe(b[..n]);
      QuotientUnique(FromBe(b), 256, FromBe(b[..n]), b[n]);
      assert b == b[..n] + [b[n]];
    }
  }

  lemma {:induction false} WidthAdd(m: nat, n: nat)
    ensures Width(m + n) == Width(m) * Width(n)
  {
    if m > 0 {
      WidthAdd(m - 1, n);
    }
  }

  lemma Width32()
    ensures Width(32) == 0x1_0000_0000_0000_0000_0000_0000_0000_0000_0000_0000_0000_0000_0000_0000_0000_0000
  {
    Widths();
    WidthAdd(8, 8);
    WidthAdd(16, 16);
  }

  /** The number a 32-byte string spells. */
  function HashOf(b: Bytes32): (h: Hash)
    ensures Be(h, 32) == b
  {
    BeOfFromBe(b);
    Width32();
    FromBe(b)
  }

  lemma HashOfBe(h: Hash)
    ensures HashOf(Be(h, 32)) == h
  {
    Width32();
    FromBeOfBe(h, 32);
  }

  // ------------------------------------------------------------ reading

  /** The cursor's `take`: the next `n` bytes, if they are there. */
  function Take(b: seq<byte>, n: nat): (r: Parsed<seq<byte>>)
    ensures r.Some? <==> n <= |b|
    ensures r.Some? ==> |r.value.0| == n && b == r.value.0 + r.value.1
  {
    if n <= |b| then Some((b[..n], b[n..])) else None
  }

  /** `b.get(p..p + n)`. */
  function Get(b: seq<byte>, p: nat, n: nat): (r: Option<seq<byte>>)
    requires p <= |b|
    ensures r.None? <==> Take(b[p..], n).None?
    ensures r.Some? ==> p + n <= |b| && |r.value| == n && Take(b[p..], n) == Some((r.value, b[p + n..]))
  {
    if p + n <= |b| then
      assert b[p..][..n] == b[p..p + n] && b[p..][n..] == b[p + n..];
      Some(b[p..p + n])
    else None
  }

  function ParseInt(b: seq<byte>, w: nat): (r: Parsed<nat>)
    ensures r.Some? ==> r.value.0 < Width(w) && b == Le(r.value.0, w) + r.value.1
  {
    match Take(b, w)
    case None => None
    case Some((x, rest)) =>
      LeOfFromLe(x);
      Some((FromLe(x), rest))
  }

  function ParseU32(b: seq<byte>): (r: Parsed<u32>) {
    Widths();
    ParseInt(b, 4)
  }

  function ParseU64(b: seq<byte>): (r: Parsed<u64>) {
    Widths();
    ParseInt(b, 8)
  }

  lemma IntForward(n: nat, w: nat, rest: seq<byte>)
    requires n < Width(w)
    ensures ParseInt(Le(n, w) + rest, w) == Some((n, rest))
  {
    FromLeOfLe(n, w);
    assert (Le(n, w) + rest)[..w] == Le(n, w);
  }

  lemma U32Forward(n: nat, rest: seq<byte>)
    requires n < 0x1_0000_0000
    ensures ParseU32(Le(n, 4) + rest) == Some((n, rest))
  {
    Widths();
    IntForward(n, 4, rest);
  }

  lemma U64Forward(n: u64, rest: seq<byte>)
    ensures ParseU64(Le(n, 8) + rest) == Some((n, rest))
  {
    Widths();
    IntForward(n, 8, rest);
  }

  lemma TakeForward(x: seq<byte>, rest: seq<byte>)
    ensures Take(x + rest, |x|) == Some((x, rest))
  {
    assert (x + rest)[..|x|] == x && (x + rest)[|x|..] == rest;
  }

  lemma Assoc(a: seq<byte>, b: seq<byte>, c: seq<byte>)
    ensures (a + b) + c == a + (b + c)
  {
  }

  lemma Assoc3(a: seq<byte>, b: seq<byte>, c: seq<byte>, d: seq<byte>)
    ensures ((a + b) + c) + d == a + (b + (c + d))
  {
    Assoc(a + b, c, d);
    Assoc(a, b, c + d);
  }

  // ------------------------------------------------------------ lists

  /** Elements written one after another. */
  function Cat<T>(enc: T -> seq<byte>, xs: seq<T>): seq<byte> {
    if xs == [] then [] else enc(xs[0]) + Cat(enc, xs[1..])
  }

  /** `for _ in 0..n { list.push(parse()?) }`. */
  function Many<T>(parse: seq<byte> -> Parsed<T>, b: seq<byte>, n: nat): (r: Parsed<seq<T>>)
    ensures r.Some? ==> |r.value.0| == n
    decreases n
  {
    if n == 0 then Some(([], b)) else
      match parse(b)
      case None => None
      case Some((x, rest)) =>
        match Many(parse, rest, n - 1)
        case None => None
        case Some((xs, end)) => Some(([x] + xs, end))
  }

  function Prepend<T>(xs: seq<T>, r: Parsed<seq<T>>): Parsed<seq<T>> {
    match r
    case None => None
    case Some((ys, rest)) => Some((xs + ys, rest))
  }

  lemma {:induction false} CatAppend<T>(enc: T -> seq<byte>, xs: seq<T>, x: T)
    ensures Cat(enc, xs + [x]) == Cat(enc, xs) + enc(x)
  {
    if xs == [] {
      assert [x][1..] == [];
    } else {
      CatAppend(enc, xs[1..], x);
      assert (xs + [x])[1..] == xs[1..] + [x];
    }
  }

  /** One turn of a writing loop. */
  lemma WroteOne<T>(enc: T -> seq<byte>, head: seq<byte>, xs: seq<T>, i: nat)
    requires i < |xs|
    ensures head + Cat(enc, xs[..i]) + enc(xs[i]) == head + Cat(enc, xs[..i + 1])
  {
    CatAppend(enc, xs[..i], xs[i]);
    assert xs[..i + 1] == xs[..i] + [xs[i]];
    Assoc(head, Cat(enc, xs[..i]), enc(xs[i]));
  }

  /** If each element is read back from its own bytes, so is the list. */
  lemma {:induction false} ManyForward<T(!new)>(
      parse: seq<byte> -> Parsed<T>, enc: T -> seq<byte>, xs: seq<T>, rest: seq<byte>)
    requires forall x, r :: x in xs ==> parse(enc(x) + r) == Some((x, r))
    ensures Many(parse, Cat(enc, xs) + rest, |xs|) == Some((xs, rest))
  {
    if xs == [] {
      assert Cat(enc, xs) + rest == rest;
    } else {
      ManyForward(parse, enc, xs[1..], rest);
      var tail := Cat(enc, xs[1..]) + rest;
      assert Cat(enc, xs) + rest == enc(xs[0]) + tail;
      assert xs[0] in xs && parse(enc(xs[0]) + tail) == Some((xs[0], tail));
      assert [xs[0]] + xs[1..] == xs;
    }
  }

  /** If what is read is always what would be written, so it is for the list. */
  lemma {:induction false} ManyBackward<T(!new)>(
      parse: seq<byte> -> Parsed<T>, enc: T -> seq<byte>, b: seq<byte>, n: nat)
    requires forall c :: parse(c).Some? ==> c == enc(parse(c).value.0) + parse(c).value.1
    ensures Many(parse, b, n).Some? ==> b == Cat(enc, Many(parse, b, n).value.0) + Many(parse, b, n).value.1
    decreases n
  {
    if n > 0 && parse(b).Some? {
      var (x, rest) := parse(b).value;
      ManyBackward(parse, enc, rest, n - 1);
      if Many(parse, rest, n - 1).Some? {
        var (xs, end) := Many(parse, rest, n - 1).value;
        assert ([x] + xs)[1..] == xs;
        assert b == enc(x) + (Cat(enc, xs) + end);
      }
    }
  }

  lemma PrependNothing<T>(r: Parsed<seq<T>>)
    ensures Prepend([], r) == r
  {
    if r.Some? {
      assert [] + r.value.0 == r.value.0;
    }
  }

  lemma PrependEnd<T>(parse: seq<byte> -> Parsed<T>, xs: seq<T>, b: seq<byte>)
    ensures Prepend(xs, Many(parse, b, 0)) == Some((xs, b))
  {
    assert xs + [] == xs;
  }

  /** One turn of a reading loop. */
  lemma ManyStep<T>(parse: seq<byte> -> Parsed<T>, xs: seq<T>, b: seq<byte>, n: nat)
    requires n > 0
    ensures parse(b).None? ==> Prepend(xs, Many(parse, b, n)) == None
    ensures parse(b).Some? ==> var (x, rest) := parse(b).value;
              Prepend(xs, Many(parse, b, n)) == Prepend(xs + [x], Many(parse, rest, n - 1))
  {
    if parse(b).Some? {
      var (x, rest) := parse(b).value;
      var more := Many(parse, rest, n - 1);
      if more.Some? {
        assert xs + ([x] + more.value.0) == xs + [x] + more.value.0;
      }
    }
  }

  /** Every element of a list that was read satisfies what every read element does. */
  lemma {:induction false} ManyAll<T(!new)>(parse: seq<byte> -> Parsed<T>, b: seq<byte>, n: nat, good: T -> bool)
    requires forall c :: parse(c).Some? ==> good(parse(c).value.0)
    ensures Many(parse, b, n).Some? ==> forall x :: x in Many(parse, b, n).value.0 ==> good(x)
    decreases n
  {
    if n > 0 && parse(b).Some? {
      ManyAll(parse, parse(b).value.1, n - 1, good);
    }
  }
}
