/** Fixed-point arithmetic over a 256-bit intermediate (src/amount.rs).

    A `u128` and an `i128` are integers with their ranges; every machine
    operation that can lose bits (a shift, a wrapping subtraction, a mask) is
    written out with the bits it loses, and every sum or product stored in a
    `u128` is checked to fit, so "cannot overflow" is part of what verifies. */
module Amount {
  import opened Prelude
  import opened Arith

  const TWO64: int := 0x1_0000_0000_0000_0000
  const TWO127: int := 0x8000_0000_0000_0000_0000_0000_0000_0000
  const TWO128: int := 0x1_0000_0000_0000_0000_0000_0000_0000_0000

  type u128 = x: int | 0 <= x < 0x1_0000_0000_0000_0000_0000_0000_0000_0000

  type i128 = x: int |
      -0x8000_0000_0000_0000_0000_0000_0000_0000 <= x < 0x8000_0000_0000_0000_0000_0000_0000_0000

  /** Scaling factor of every `Fixed` value. */
  const WAD: int := 1_000_000_000_000_000_000

  // ------------------------------------------------------------ bit operations

  function Pow2(n: nat): (p: nat)
    ensures p >= 1
  {
    if n == 0 then 1 else 2 * Pow2(n - 1)
  }

  lemma Pow2At128(n: nat)
    requires n == 128
    ensures Pow2(n) == TWO128
  {
    var m := n / 128;
    Pow2Square(m, 2);
    Pow2Square(2 * m, 4);
    Pow2Square(4 * m, 16);
    Pow2Square(8 * m, 256);
    Pow2Square(16 * m, 0x1_0000);
    Pow2Square(32 * m, 0x1_0000_0000);
    Pow2Square(64 * m, TWO64);
  }

  lemma Pow2Square(n: nat, v: int)
    requires Pow2(n) == v
    ensures Pow2(2 * n) == v * v
  {
    Pow2Add(n, n);
  }

  lemma {:induction false} Pow2Add(m: nat, n: nat)
    ensures Pow2(m + n) == Pow2(m) * Pow2(n)
  {
    if n > 0 {
      Pow2Add(m, n - 1);
    }
  }

  /** `x & u64::MAX`. */
  function Low64(x: u128): u128 { x % TWO64 }

  /** `x >> 64`. */
  function High64(x: u128): u128 { x / TWO64 }

  /** `(x >> i) & 1`. */
  function Bit(x: u128, i: nat): int { (x / Pow2(i)) % 2 }

  /** `x | (1 << i)`. */
  function OrBit(x: u128, i: nat): int {
    if Bit(x, i) == 1 then x else x + Pow2(i)
  }

  /** `(x << 1) | bit`: the top bit of `x` is lost. */
  function ShiftIn(x: u128, bit: int): u128
    requires 0 <= bit <= 1
  {
    (x * 2 + bit) % TWO128
  }

  /** `x.wrapping_sub(y)`. */
  function WrappingSub(x: u128, y: u128): u128 { (x - y) % TWO128 }

  /** `i128::unsigned_abs`. */
  function Magnitude(a: int): nat { if a < 0 then -a else a }

  // ------------------------------------------------------------ the 256-bit product

  /** The full product as (high, low) words. */
  function MulFull(a: u128, b: u128): (r: (u128, u128))
    ensures r.0 * TWO128 + r.1 == a * b
  {
    var aLo, aHi := Low64(a), High64(a);
    var bLo, bHi := Low64(b), High64(b);
    ProductsFit(aLo, bLo);
    ProductsFit(aLo, bHi);
    ProductsFit(aHi, bLo);
    ProductsFit(aHi, bHi);
    var ll: u128 := aLo * bLo;
    var lh: u128 := aLo * bHi;
    var hl: u128 := aHi * bLo;
    var hh: u128 := aHi * bHi;
    var mid: u128 := High64(ll) + Low64(lh) + Low64(hl);
    var lo: u128 := Low64(ll) + Low64(mid) * TWO64;
    Distribute(aHi, aLo, bHi, bLo);
    WordBound(a, b, hh + High64(lh) + High64(hl) + High64(mid), lo);
    var hi: u128 := hh + High64(lh) + High64(hl) + High64(mid);
    (hi, lo)
  }

  lemma ProductsFit(x: int, y: int)
    requires 0 <= x < TWO64 && 0 <= y < TWO64
    ensures 0 <= x * y <= (TWO64 - 1) * (TWO64 - 1)
  {
    assert x * y <= x * (TWO64 - 1) <= (TWO64 - 1) * (TWO64 - 1) by {
      MulMono(x, y, TWO64 - 1);
      MulMono(TWO64 - 1, x, TWO64 - 1);
    }
    MulMono(x, 0, y);
  }

  lemma Distribute(aHi: int, aLo: int, bHi: int, bLo: int)
    ensures (aHi * TWO64 + aLo) * (bHi * TWO64 + bLo)
         == aHi * bHi * TWO128 + (aLo * bHi + aHi * bLo) * TWO64 + aLo * bLo
  {
    var t := TWO64;
    assert (aHi * t + aLo) * (bHi * t + bLo)
        == aHi * t * (bHi * t) + aHi * t * bLo + aLo * (bHi * t) + aLo * bLo;
    assert aHi * t * (bHi * t) == aHi * bHi * (t * t);
    assert aHi * t * bLo == aHi * bLo * t;
    assert aLo * (bHi * t) == aLo * bHi * t;
  }

  lemma WordBound(a: u128, b: u128, hi: int, lo: int)
    requires 0 <= lo && hi * TWO128 + lo == a * b
    ensures hi < TWO128
  {
    MulMono(a, b, TWO128);
    assert a * b <= a * TWO128 < TWO128 * TWO128;
  }

  // ------------------------------------------------------------ the 256-by-128 division

  /** What the division must return: the exact quotient and remainder, or
      nothing when there is no divisor or the quotient needs more than 128 bits. */
  ghost predicate IsDivision(hi: u128, lo: u128, den: u128, r: Option<(u128, u128)>) {
    var n := hi * TWO128 + lo;
    match r
    case None => den == 0 || n >= den * TWO128
    case Some((q, rem)) => den > 0 && n == q * den + rem && rem < den
  }

  /** `div_256_rem`: shift-subtract long division, most significant bit first. */
  method DivRem(hi: u128, lo: u128, den: u128) returns (r: Option<(u128, u128)>)
    ensures IsDivision(hi, lo, den, r)
  {
    if den == 0 {
      return None;
    }
    ShortDivisions(hi, lo, den);
    if hi == 0 {
      return Some((lo / den, lo % den));
    }
    if hi >= den {
      return None;
    }
    var rem: u128 := hi;
    var quo: u128 := 0;
    var i: nat := WIDTH;
    ghost var q: nat := 0;
    DivisionStarts(hi, lo, den, i);
    while i > 0
      invariant 0 <= i <= WIDTH
      invariant Dividing(hi, lo, den, rem, quo, q, i)
    {
      i := i - 1;
      rem, quo, q := ShiftSubtract(hi, lo, den, rem, quo, q, i);
    }
    r := Some((quo, rem));
  }

  /** One turn of the division. */
  method ShiftSubtract(ghost hi: u128, lo: u128, den: u128, rem0: u128, quo0: u128, ghost q0: nat, i: nat)
    returns (rem: u128, quo: u128, ghost q: nat)
    requires i < 128 && Dividing(hi, lo, den, rem0, quo0, q0, i + 1)
    ensures Dividing(hi, lo, den, rem, quo, q, i)
  {
    var bit := Bit(lo, i);
    DivisionStep(hi, lo, den, rem0, quo0, q0, i);
    ShiftLosesOnlyTheCarry(rem0, bit, den);
    var carryOut := rem0 / TWO127;
    rem, quo, q := ShiftIn(rem0, bit), quo0, 2 * q0;
    if carryOut == 1 || rem >= den {
      rem := WrappingSub(rem, den);
      quo := OrBit(quo, i);
      q := q + 1;
    }
  }

  lemma ShortDivisions(hi: u128, lo: u128, den: u128)
    requires den > 0
    ensures hi == 0 ==>
              0 <= lo / den <= lo && 0 <= lo % den < den && IsDivision(hi, lo, den, Some((lo / den, lo % den)))
    ensures hi >= den ==> IsDivision(hi, lo, den, None)
  {
    DivModEq(lo, den);
  }

  const WIDTH: nat := 128

  /** The state of the long division with `i` bits to go: `quo` is `q` with its
      low `i` bits clear, and q * den + rem is the dividend's high part. */
  ghost predicate Dividing(hi: u128, lo: u128, den: u128, rem: u128, quo: u128, q: nat, i: nat) {
    && i <= 128 && rem < den
    && q < Pow2(128 - i) && quo == q * Pow2(i)
    && hi * Pow2(128 - i) + lo / Pow2(i) == q * den + rem
  }

  lemma DivisionStarts(hi: u128, lo: u128, den: u128, w: nat)
    requires hi < den && w == WIDTH
    ensures Dividing(hi, lo, den, hi, 0, 0, w)
    ensures forall rem: u128, quo: u128, q: nat | Dividing(hi, lo, den, rem, quo, q, 0) ::
              IsDivision(hi, lo, den, Some((quo, rem)))
  {
    Pow2At128(w);
    QuotientUnique(lo, TWO128, 0, lo);
    assert Pow2(0) == 1;
  }

  /** The 129-bit value rem * 2 + bit is judged and reduced correctly from its
      low 128 bits and the bit that was shifted out. */
  lemma ShiftLosesOnlyTheCarry(rem: u128, bit: int, den: u128)
    requires rem < den && 0 <= bit <= 1
    ensures var wide := rem * 2 + bit;
            var low := ShiftIn(rem, bit);
            && (rem / TWO127 == 1 || low >= den <==> wide >= den)
            && (wide >= den ==> WrappingSub(low, den) == wide - den)
            && (wide < den ==> low == wide)
  {
  }

  lemma DivisionStep(hi: u128, lo: u128, den: u128, rem: u128, quo: u128, q: nat, i: nat)
    requires i < 128 && Dividing(hi, lo, den, rem, quo, q, i + 1)
    ensures var wide := rem * 2 + Bit(lo, i);
            && 0 <= OrBit(quo, i) < TWO128
            && (wide >= den ==> wide - den < den && Dividing(hi, lo, den, wide - den, OrBit(quo, i), 2 * q + 1, i))
            && (wide < den ==> Dividing(hi, lo, den, wide, quo, 2 * q, i))
  {
    NextBit(lo, i);
    var p := Pow2(128 - (i + 1));
    assert Pow2(128 - i) == 2 * p;
    StepArithmetic(hi, den, q, rem, Bit(lo, i), p, lo / Pow2(i + 1), lo / Pow2(i));
    QuotientBit(q, quo, i);
  }

  /** Shifting one place less brings in exactly the next bit. */
  lemma NextBit(lo: u128, i: nat)
    ensures lo / Pow2(i) == 2 * (lo / Pow2(i + 1)) + Bit(lo, i)
  {
    var p := Pow2(i);
    DivModEq(lo, p);
    DivModEq(lo / p, 2);
    HalfQuotient(lo, p, lo / p, lo % p, lo / p / 2, lo / p % 2);
  }

  lemma HalfQuotient(n: nat, p: nat, x: nat, r: nat, y: nat, b: nat)
    requires p > 0 && n == x * p + r && r < p && x == y * 2 + b && b < 2
    ensures n / (2 * p) == y
  {
    assert x * p == y * (2 * p) + b * p;
    assert b * p == if b == 0 then 0 else p;
    QuotientUnique(n, 2 * p, y, b * p + r);
  }

  lemma StepArithmetic(hi: int, den: int, q: int, rem: int, bit: int, p: int, before: int, after: int)
    requires hi * p + before == q * den + rem
    requires after == 2 * before + bit
    ensures hi * (2 * p) + after == (2 * q) * den + (rem * 2 + bit)
    ensures hi * (2 * p) + after == (2 * q + 1) * den + (rem * 2 + bit - den)
  {
    assert hi * (2 * p) == 2 * (hi * p);
    assert (2 * q) * den == 2 * (q * den);
    assert (2 * q + 1) * den == (2 * q) * den + den;
  }

  /** Setting bit `i` of a quotient whose low bits are still clear adds 2^i. */
  lemma QuotientBit(q: nat, quo: u128, i: nat)
    requires i < 128 && q < Pow2(128 - (i + 1)) && quo == q * Pow2(i + 1)
    ensures OrBit(quo, i) == (2 * q + 1) * Pow2(i)
    ensures quo == 2 * q * Pow2(i)
    ensures 0 <= OrBit(quo, i) < TWO128
    ensures 2 * q + 1 < Pow2(128 - i)
  {
    var p := Pow2(i);
    assert Pow2(i + 1) == 2 * p;
    EvenMultiple(q, p);
    QuotientUnique(quo, p, 2 * q, 0);
    assert Bit(quo, i) == 0;
    StillFits(q, p, i);
  }

  lemma StillFits(q: nat, p: nat, i: nat)
    requires i < 128 && q < Pow2(128 - (i + 1)) && p == Pow2(i)
    ensures (2 * q) * p + p < TWO128
    ensures 2 * q + 1 < Pow2(128 - i)
  {
    var w := Pow2(128 - i);
    assert w == 2 * Pow2(128 - (i + 1));
    Pow2Add(128 - i, i);
    Pow2At128(128 - i + i);
    EvenMultiple(q, p);
    MulMono(p, 2 * q + 2, w);
    assert p * w == w * p;
  }

  lemma EvenMultiple(q: nat, p: nat)
    ensures q * (2 * p) == (2 * q) * p
    ensures (2 * q + 1) * p == (2 * q) * p + p
    ensures p * (2 * q + 2) == (2 * q) * p + p + p
    ensures (2 * q) * p >= 0
  {
  }

  // ------------------------------------------------------------ signed quotients

  predicate FitsI128(x: int) { -TWO127 <= x < TWO127 }

  /** n / d truncated toward zero. */
  function TruncDiv(n: int, d: int): int
    requires d != 0
  {
    var q := Magnitude(n) / Magnitude(d);
    if (n < 0) != (d < 0) then -q else q
  }

  /** n / d rounded away from zero. */
  function AwayDiv(n: int, d: int): int
    requires d != 0
  {
    var t := TruncDiv(n, d);
    if t * d == n then t else if (n < 0) != (d < 0) then t - 1 else t + 1
  }

  /** Truncation is the one quotient whose remainder is smaller than the
      divisor and never has the opposite sign to the dividend. */
  lemma TruncDivIsTruncation(n: int, d: int, t: int)
    requires d != 0
    ensures t == TruncDiv(n, d) <==>
            (Magnitude(n - t * d) < Magnitude(d) && (n >= 0 ==> n - t * d >= 0) && (n <= 0 ==> n - t * d <= 0))
  {
    var m, e := Magnitude(n), Magnitude(d);
    var s := if (n < 0) != (d < 0) then -t else t;
    RemainderMagnitude(n, d, t, s);
    DivModEq(m, e);
    if 0 <= m - s * e < e {
      QuotientUnique(m, e, s, m - s * e);
    }
    if n == 0 && s != 0 {
      MulMono(e, 1, Magnitude(s));
      MagnitudeOfProduct(s, d);
      assert Magnitude(s * e) >= e;
    }
  }

  lemma RemainderMagnitude(n: int, d: int, t: int, s: int)
    requires s == if (n < 0) != (d < 0) then -t else t
    ensures n - t * d == if n < 0 then -(Magnitude(n) - s * Magnitude(d)) else Magnitude(n) - s * Magnitude(d)
  {
    SignOfProduct(t, d);
  }

  lemma SignOfProduct(t: int, d: int)
    ensures (-t) * d == -(t * d) && t * (-d) == -(t * d) && (-t) * (-d) == t * d
  {
  }

  lemma MagnitudeOfProduct(a: int, b: int)
    ensures Magnitude(a * b) == Magnitude(a) * Magnitude(b)
    ensures a * b == if (a < 0) != (b < 0) then -(Magnitude(a) * Magnitude(b)) else Magnitude(a) * Magnitude(b)
  {
    SignOfProduct(a, b);
    var x, y := Magnitude(a), Magnitude(b);
    MulMono(x, 0, y);
    assert x * y >= 0;
  }

  /** The sign is put back on a magnitude: 2^127 is a value only when negative. */
  function Signed(neg: bool, q: u128): (r: Option<i128>)
    ensures r == var v: int := if neg then 0 - q else q; if FitsI128(v) then Some(v) else None
  {
    if neg then
      if q > TWO127 - 1 + 1 then None
      else if q == TWO127 - 1 + 1 then Some(-TWO127)
      else Some(0 - q)
    else if q > TWO127 - 1 then None
    else Some(q)
  }

  /** `mul_div`: exact, truncated toward zero, and absent exactly when there is
      no divisor or the quotient is not an i128. */
  method MulDiv(a: i128, b: i128, den: i128) returns (r: Option<i128>)
    ensures r == if den != 0 && FitsI128(TruncDiv(a * b, den)) then Some(TruncDiv(a * b, den)) else None
  {
    if den == 0 {
      return None;
    }
    var neg := ((a < 0) != (b < 0)) != (den < 0);
    var (hi, lo) := MulFull(Magnitude(a), Magnitude(b));
    var d := DivRem(hi, lo, Magnitude(den));
    MagnitudeOfProduct(a, b);
    ghost var m := Magnitude(a * b);
    match d {
      case None =>
        QuotientTooWide(m, Magnitude(den));
        return None;
      case Some((q, rem)) =>
        QuotientUnique(m, Magnitude(den), q, rem);
        r := Signed(neg, q);
        ZeroHasNoSign(a, b, den, neg, q);
    }
  }

  /** `mul_div_ceil`: the same, rounded away from zero. */
  method MulDivCeil(a: i128, b: i128, den: i128) returns (r: Option<i128>)
    ensures r == if den != 0 && FitsI128(AwayDiv(a * b, den)) then Some(AwayDiv(a * b, den)) else None
  {
    if den == 0 {
      return None;
    }
    var neg := ((a < 0) != (b < 0)) != (den < 0);
    var (hi, lo) := MulFull(Magnitude(a), Magnitude(b));
    var d := DivRem(hi, lo, Magnitude(den));
    MagnitudeOfProduct(a, b);
    ghost var m := Magnitude(a * b);
    match d {
      case None =>
        QuotientTooWide(m, Magnitude(den));
        return None;
      case Some((q, rem)) =>
        QuotientUnique(m, Magnitude(den), q, rem);
        ZeroHasNoSign(a, b, den, neg, q);
        AwayFromParts(a * b, den, q, rem);
        if rem != 0 && q + 1 >= TWO128 {
          return None;  // checked_add
        }
        r := Signed(neg, if rem != 0 then q + 1 else q);
    }
  }

  lemma QuotientTooWide(m: nat, e: int)
    requires e > 0 && m >= e * TWO128
    ensures m / e >= TWO128
  {
    DivModEq(m, e);
    assert e * (m / e + 1) == (m / e) * e + e;
    if m / e < TWO128 {
      MulMono(e, m / e + 1, TWO128);
    }
  }

  /** The sign the code computes from the three operands is the sign of the
      quotient, except that a zero product carries none. */
  lemma ZeroHasNoSign(a: int, b: int, den: int, neg: bool, q: nat)
    requires den != 0 && neg == (((a < 0) != (b < 0)) != (den < 0))
    requires q == Magnitude(a * b) / Magnitude(den)
    ensures TruncDiv(a * b, den) == if neg then 0 - q else q
    ensures a * b != 0 ==> neg == ((a * b < 0) != (den < 0))
    ensures a * b == 0 ==> q == 0
  {
    MagnitudeOfProduct(a, b);
    if a != 0 && b != 0 {
      MulMono(Magnitude(a), 1, Magnitude(b));
      assert Magnitude(a * b) > 0;
    } else {
      assert a * b == 0;
      QuotientUnique(0, Magnitude(den), 0, 0);
    }
  }

  lemma AwayFromParts(n: int, d: int, q: nat, rem: nat)
    requires d != 0 && Magnitude(n) == q * Magnitude(d) + rem && rem < Magnitude(d)
    ensures TruncDiv(n, d) == if (n < 0) != (d < 0) then 0 - q else q
    ensures TruncDiv(n, d) * d == n <==> rem == 0
  {
    QuotientUnique(Magnitude(n), Magnitude(d), q, rem);
    SignOfProduct(q, d);
    MagnitudeOfProduct(q, d);
    MulMono(Magnitude(d), 0, q);
  }

  // ------------------------------------------------------------ what rounding costs

  /** Truncation is sign-symmetric in every operand; at the one edge of the
      range it is defined for the negative sign only. */
  lemma RoundingIsSignSymmetric(n: int, d: int)
    requires d != 0
    ensures TruncDiv(-n, d) == -TruncDiv(n, d) && TruncDiv(n, -d) == -TruncDiv(n, d)
    ensures AwayDiv(-n, d) == -AwayDiv(n, d) && AwayDiv(n, -d) == -AwayDiv(n, d)
    ensures FitsI128(TruncDiv(n, d)) && !FitsI128(TruncDiv(-n, d)) <==> TruncDiv(n, d) == -TWO127
    ensures FitsI128(AwayDiv(n, d)) && !FitsI128(AwayDiv(-n, d)) <==> AwayDiv(n, d) == -TWO127
  {
    var t := TruncDiv(n, d);
    SignOfProduct(t, d);
    if n == 0 {
      QuotientUnique(0, Magnitude(d), 0, 0);
    }
  }

  /** Rounding up is one more than truncating exactly when the division is not exact. */
  lemma CeilExceedsFloorExactlyWhenInexact(n: int, d: int)
    requires d != 0
    ensures Magnitude(AwayDiv(n, d)) - Magnitude(TruncDiv(n, d)) == if Magnitude(n) % Magnitude(d) == 0 then 0 else 1
    ensures Magnitude(AwayDiv(n, d)) * Magnitude(d) >= Magnitude(n)
  {
    var m, e := Magnitude(n), Magnitude(d);
    DivModEq(m, e);
    AwayFromParts(n, d, m / e, m % e);
    assert (m / e + 1) * e == (m / e) * e + e;
  }

  /** `x.div(y).mul(y)` never exceeds x and loses at most ceil(y / WAD) raw units. */
  lemma DivThenMulLoss(x: int, y: int)
    requires x >= 0 && y > 0
    ensures var back := TruncDiv(TruncDiv(x * WAD, y) * y, WAD);
            back <= x && x - back <= AwayDiv(y, WAD)
  {
    var n := x * WAD;
    var q := n / y;
    DivModEq(n, y);
    assert TruncDiv(n, y) == q;
    MulMono(y, 0, q);
    var back := q * y / WAD;
    assert TruncDiv(q * y, WAD) == back;
    FloorIsMonotone(q * y, n, WAD);
    QuotientUnique(n, WAD, x, 0);
    var c := AwayDiv(y, WAD);
    CeilExceedsFloorExactlyWhenInexact(y, WAD);
    assert c >= 0 && c * WAD >= y;
    assert q * y > n - y >= (x - c) * WAD;
    FloorIsMonotone((x - c) * WAD, q * y, WAD);
    QuotientUnique((x - c) * WAD, WAD, x - c, 0);
  }

  /** Dividing first and multiplying after never beats the one-step form. */
  lemma ChainedNeverExceedsOneStep(x: int, num: int, den: int)
    requires x >= 0 && num >= 0 && den > 0
    ensures TruncDiv(TruncDiv(x * WAD, den) * num, WAD) <= TruncDiv(x * num, den)
  {
    var q := x * WAD / den;
    MulMono(WAD, 0, x);
    DivModEq(x * WAD, den);
    MulMono(num, 0, q);
    MulMono(num, 0, x);
    assert TruncDiv(x * WAD, den) == q;
    var c := q * num / WAD;
    assert TruncDiv(q * num, WAD) == c;
    // c * WAD <= q * num and q * den <= x * WAD, so c * den <= x * num
    assert (c * den) * WAD <= (x * num) * WAD by {
      DivModEq(q * num, WAD);
      MulMono(den, c * WAD, q * num);
      MulMono(num, q * den, x * WAD);
      assert den * (c * WAD) == (c * den) * WAD;
      assert den * (q * num) == num * (q * den);
      assert num * (x * WAD) == (x * num) * WAD;
    }
    FloorIsMonotone(c * den, x * num, den);
    QuotientUnique(c * den, den, c, 0);
  }
}
