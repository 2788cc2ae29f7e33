/** Positional notation: digit strings, their values, and conversion between bases. */
module Positional {
  import opened Prelude
  import opened Arith

  ghost predicate InBase(d: seq<int>, base: nat) {
    forall i :: 0 <= i < |d| ==> 0 <= d[i] < base
  }

  /** Value of a digit string, most significant digit first. */
  ghost function Value(x: seq<int>, base: nat): nat
    requires InBase(x, base)
  {
    if x == [] then 0 else Value(x[..|x| - 1], base) * base + x[|x| - 1]
  }

  /** The digits of `n`, least significant first, with no zero on top. */
  function Digits(n: nat, base: nat): (d: seq<int>)
    requires base >= 2
    ensures InBase(d, base)
    ensures d != [] ==> d[|d| - 1] != 0
  {
    if n == 0 then [] else
      Shrinks(n, base);
      [n % base] + Digits(n / base, base)
  }

  lemma Shrinks(n: nat, base: nat)
    requires n > 0 && base >= 2
    ensures 0 <= n / base < n && n == (n / base) * base + n % base
  {
    DivModEq(n, base);
    MulMono(n / base, 2, base);
  }

  function Reverse(d: seq<int>): (r: seq<int>)
    ensures |r| == |d|
    ensures forall i :: 0 <= i < |d| ==> r[i] == d[|d| - 1 - i]
  {
    if d == [] then [] else Reverse(d[1..]) + [d[0]]
  }

  function LeadingZeros(x: seq<int>): (z: nat)
    ensures z <= |x| && (forall i :: 0 <= i < z ==> x[i] == 0) && (z < |x| ==> x[z] != 0)
  {
    if x == [] || x[0] != 0 then 0 else 1 + LeadingZeros(x[1..])
  }

  /** What base58 and its inverse both compute: leading zeros are kept one for
      one, and the rest is the same number written in the other base. */
  ghost function Convert(x: seq<int>, from: nat, to: nat): (y: seq<int>)
    requires from >= 2 && to >= 2 && InBase(x, from)
    ensures InBase(y, to)
  {
    Zeros(LeadingZeros(x)) + Reverse(Digits(Value(x, from), to))
  }

  // ------------------------------------------------------------ multiply-and-add on digits

  /** One pass of the inner loops: multiply a little-endian number by `m` and
      add `c`, carrying upward and growing at the top. */
  ghost function MulAdd(d: seq<int>, m: nat, c: nat, base: nat): seq<int>
    requires base >= 2 && InBase(d, base)
  {
    if d == [] then Digits(c, base)
    else
      var v := d[0] * m + c;
      [v % base] + MulAdd(d[1..], m, v / base, base)
  }

  lemma DigitsCons(w: nat, base: nat, q: nat, r: nat)
    requires base >= 2 && w > 0 && w == q * base + r && r < base
    ensures Digits(w, base) == [r] + Digits(q, base)
  {
    QuotientUnique(w, base, q, r);
  }

  lemma {:induction false} MulAddIsExact(n: nat, m: nat, c: nat, base: nat)
    requires base >= 2 && m > 0
    ensures MulAdd(Digits(n, base), m, c, base) == Digits(n * m + c, base)
    decreases n
  {
    if n > 0 {
      Shrinks(n, base);
      var q, r := n / base, n % base;
      DigitsCons(n, base, q, r);
      var up, v := MulAddCons(r, Digits(q, base), m, c, base);
      MulAddIsExact(q, m, up, base);
      CarryOut(n, q, r, m, c, up, v, base);
      DigitsCons(n * m + c, base, q * m + up, v);
    }
  }

  lemma MulAddCons(r: nat, d: seq<int>, m: nat, c: nat, base: nat) returns (up: nat, v: nat)
    requires base >= 2 && r < base && InBase(d, base)
    ensures r * m + c == up * base + v && v < base
    ensures InBase([r] + d, base)
    ensures MulAdd([r] + d, m, c, base) == [v] + MulAdd(d, m, up, base)
  {
    MulMono(m, 0, r);
    DivModEq(r * m + c, base);
    up, v := (r * m + c) / base, (r * m + c) % base;
    assert ([r] + d)[1..] == d;
  }

  lemma CarryOut(n: nat, q: nat, r: nat, m: nat, c: nat, up: nat, v: nat, base: nat)
    requires m > 0 && n > 0 && n == q * base + r && r * m + c == up * base + v
    ensures q * m >= 0 && n * m + c > 0
    ensures n * m + c == (q * m + up) * base + v
  {
    MulMono(m, 0, q);
    MulMono(n, 1, m);
    assert n * m == q * m * base + r * m;
    assert (q * m + up) * base == q * m * base + up * base;
  }

  // ------------------------------------------------------------ conversion is invertible

  lemma {:induction false} DigitsHaveValue(n: nat, base: nat)
    requires base >= 2
    ensures InBase(Reverse(Digits(n, base)), base) && Value(Reverse(Digits(n, base)), base) == n
    decreases n
  {
    if n > 0 {
      Shrinks(n, base);
      DigitsHaveValue(n / base, base);
      var d := Digits(n, base);
      var r := Reverse(d);
      assert d[1..] == Digits(n / base, base);
      assert r[..|r| - 1] == Reverse(d[1..]);
    }
  }

  lemma {:induction false} ZerosAddNothing(z: nat, x: seq<int>, base: nat)
    requires base >= 2 && InBase(x, base)
    ensures InBase(Zeros(z) + x, base) && Value(Zeros(z) + x, base) == Value(x, base)
    decreases z + |x|
  {
    var w := Zeros(z) + x;
    if x != [] {
      assert w[..|w| - 1] == Zeros(z) + x[..|x| - 1];
      ZerosAddNothing(z, x[..|x| - 1], base);
    } else if z > 0 {
      assert w[..|w| - 1] == Zeros(z - 1) + x;
      ZerosAddNothing(z - 1, x, base);
    }
  }

  lemma {:induction false} ZeroValueIsAllZeros(x: seq<int>, base: nat)
    requires base >= 2 && InBase(x, base)
    ensures Value(x, base) == 0 <==> forall i :: 0 <= i < |x| ==> x[i] == 0
  {
    if x != [] {
      var y := x[..|x| - 1];
      ZeroValueIsAllZeros(y, base);
      assert Value(y, base) * base >= Value(y, base);
      assert forall i :: 0 <= i < |y| ==> x[i] == y[i];
    }
  }

  lemma LeadingZerosIs(x: seq<int>, z: nat)
    requires z <= |x| && (forall i :: 0 <= i < z ==> x[i] == 0) && (z < |x| ==> x[z] != 0)
    ensures LeadingZeros(x) == z
  {
    var k := LeadingZeros(x);
    assert k < |x| ==> x[k] != 0;
  }

  lemma ValueOnTheEnd(y: seq<int>, d: nat, base: nat)
    requires base >= 2 && InBase(y, base) && d < base
    ensures InBase(y + [d], base) && Value(y + [d], base) == Value(y, base) * base + d
  {
    assert (y + [d])[..|y|] == y;
  }

  /** Every digit string is its leading zeros and the canonical digits of its value. */
  lemma {:induction false} CanonicalForm(x: seq<int>, base: nat)
    requires base >= 2 && InBase(x, base)
    ensures x == Convert(x, base, base)
  {
    if x != [] {
      var y, d := x[..|x| - 1], x[|x| - 1];
      CanonicalForm(y, base);
      CanonicalOnTheEnd(y, d, base);
      assert x == y + [d];
    }
  }

  lemma CanonicalOnTheEnd(y: seq<int>, d: nat, base: nat)
    requires base >= 2 && InBase(y, base) && d < base && y == Convert(y, base, base)
    ensures InBase(y + [d], base) && y + [d] == Convert(y + [d], base, base)
  {
    var n, v := Value(y, base), Value(y + [d], base);
    ValueOnTheEnd(y, d, base);
    if n == 0 {
      CanonicalZero(y, d, base, v);
    } else {
      CanonicalNonZero(y, d, base, n, v);
    }
  }

  lemma CanonicalZero(y: seq<int>, d: nat, base: nat, v: nat)
    requires base >= 2 && InBase(y, base) && d < base && Value(y, base) == 0 && v == 0 * base + d
    ensures y + [d] == Zeros(LeadingZeros(y + [d])) + Reverse(Digits(v, base))
  {
    AllZeros(y, base);
    CanonicalDigit(|y|, d, base);
  }

  lemma CanonicalNonZero(y: seq<int>, d: nat, base: nat, n: nat, v: nat)
    requires base >= 2 && InBase(y, base) && d < base && n == Value(y, base) != 0 && v == n * base + d
    requires y == Zeros(LeadingZeros(y)) + Reverse(Digits(n, base))
    ensures y + [d] == Zeros(LeadingZeros(y + [d])) + Reverse(Digits(v, base))
  {
    SomeDigit(y, d, base);
    DigitOnTheEnd(n, d, base, v);
    Associate(Zeros(LeadingZeros(y)), Reverse(Digits(n, base)), d, Reverse(Digits(v, base)));
  }

  lemma Associate(z: seq<int>, u: seq<int>, d: int, w: seq<int>)
    requires w == u + [d]
    ensures z + u + [d] == z + w
  {
  }

  lemma AllZeros(y: seq<int>, base: nat)
    requires base >= 2 && InBase(y, base) && Value(y, base) == 0
    ensures y == Zeros(|y|)
  {
    ZeroValueIsAllZeros(y, base);
  }

  lemma SomeDigit(y: seq<int>, d: nat, base: nat)
    requires base >= 2 && InBase(y, base) && Value(y, base) != 0
    ensures LeadingZeros(y + [d]) == LeadingZeros(y)
  {
    ZeroValueIsAllZeros(y, base);
    LeadingZerosIs(y + [d], LeadingZeros(y));
  }

  lemma CanonicalDigit(z: nat, d: nat, base: nat)
    requires base >= 2 && d < base
    ensures Zeros(LeadingZeros(Zeros(z) + [d])) + Reverse(Digits(d, base)) == Zeros(z) + [d]
  {
    QuotientUnique(d, base, 0, d);
    assert Digits(d, base) == if d == 0 then [] else [d];
    assert Reverse([d]) == [d];
    LeadingZerosIs(Zeros(z) + [d], if d == 0 then z + 1 else z);
  }

  lemma DigitOnTheEnd(n: nat, d: nat, base: nat, v: nat)
    requires base >= 2 && d < base && n > 0 && v == n * base + d
    ensures Reverse(Digits(v, base)) == Reverse(Digits(n, base)) + [d]
  {
    MulMono(n, 1, base);
    DigitsCons(v, base, n, d);
    assert ([d] + Digits(n, base))[1..] == Digits(n, base);
  }

  /** Converting there and back is the identity, on every digit string. */
  lemma ConvertInverts(x: seq<int>, from: nat, to: nat)
    requires from >= 2 && to >= 2 && InBase(x, from)
    ensures Convert(Convert(x, from, to), to, from) == x
  {
    var n := Value(x, from);
    var z := LeadingZeros(x);
    var u := Reverse(Digits(n, to));
    var y := Zeros(z) + u;
    DigitsHaveValue(n, to);
    ZerosAddNothing(z, u, to);
    LeadingZerosIs(y, z);
    CanonicalForm(x, from);
  }
}
