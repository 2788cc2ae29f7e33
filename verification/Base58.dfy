/** base58 (src/base58.rs). A string is its characters; only the 58 ASCII
    characters of the alphabet ever decode. */
module Base58 {
  import opened Prelude
  import opened Arith
  import opened Positional

  const DIGITS: string := "123456789"
  const UPPER_A_TO_H: string := "ABCDEFGH"
  const UPPER_J_TO_N: string := "JKLMN"
  const UPPER_P_TO_Z: string := "PQRSTUVWXYZ"
  const LOWER_A_TO_K: string := "abcdefghijk"
  const LOWER_M_TO_Z: string := "mnopqrstuvwxyz"

  const B58: string := DIGITS + UPPER_A_TO_H + UPPER_J_TO_N + UPPER_P_TO_Z + LOWER_A_TO_K + LOWER_M_TO_Z

  lemma AlphabetLength()
    ensures |B58| == 58
  {
  }

  /** Each run of the alphabet is consecutive code points. */
  function CodePoint(i: nat): int {
    if i < 9 then '1' as int + i
    else if i < 17 then 'A' as int + (i - 9)
    else if i < 22 then 'J' as int + (i - 17)
    else if i < 33 then 'P' as int + (i - 22)
    else if i < 44 then 'a' as int + (i - 33)
    else 'm' as int + (i - 44)
  }

  lemma FirstRuns(i: nat)
    ensures |DIGITS| == 9 && |UPPER_A_TO_H| == 8 && |UPPER_J_TO_N| == 5
    ensures i < 9 ==> DIGITS[i] as int == '1' as int + i
    ensures i < 8 ==> UPPER_A_TO_H[i] as int == 'A' as int + i
    ensures i < 5 ==> UPPER_J_TO_N[i] as int == 'J' as int + i
  {
  }

  lemma LastRuns(i: nat)
    ensures |UPPER_P_TO_Z| == 11 && |LOWER_A_TO_K| == 11 && |LOWER_M_TO_Z| == 14
    ensures i < 11 ==> UPPER_P_TO_Z[i] as int == 'P' as int + i
    ensures i < 11 ==> LOWER_A_TO_K[i] as int == 'a' as int + i
    ensures i < 14 ==> LOWER_M_TO_Z[i] as int == 'm' as int + i
  {
  }

  lemma LetterCode(i: nat)
    requires i < 58
    ensures |B58| == 58 && B58[i] as int == CodePoint(i)
  {
    var at := if i < 9 then i else if i < 17 then i - 9 else if i < 22 then i - 17
              else if i < 33 then i - 22 else if i < 44 then i - 33 else i - 44;
    FirstRuns(at);
    LastRuns(at);
  }

  /** The alphabet is in code-point order, so no letter stands for two digits. */
  lemma AlphabetIncreases(i: nat, j: nat)
    requires i < j < 58
    ensures |B58| == 58 && B58[i] < B58[j]
  {
    LetterCode(i);
    LetterCode(j);
  }

  /** `B58.iter().position(..)`: the first index holding `c`. */
  function Position(c: char): (r: Option<nat>)
    ensures r.None? <==> c !in B58
    ensures r.Some? ==> r.value < 58 && B58[r.value] == c
  {
    AlphabetLength();
    PositionFrom(B58, c, 0)
  }

  function PositionFrom(alphabet: string, c: char, i: nat): (r: Option<nat>)
    requires i <= |alphabet|
    ensures r.None? <==> c !in alphabet[i..]
    ensures r.Some? ==> i <= r.value < |alphabet| && alphabet[r.value] == c
    decreases |alphabet| - i
  {
    if i == |alphabet| then None else if alphabet[i] == c then Some(i) else PositionFrom(alphabet, c, i + 1)
  }

  lemma PositionOfLetter(i: nat)
    requires i < 58
    ensures Position(B58[i]) == Some(i)
  {
    var k := Position(B58[i]).value;
    if k < i {
      AlphabetIncreases(k, i);
    } else if i < k {
      AlphabetIncreases(i, k);
    }
  }

  predicate InAlphabet(s: string) {
    forall i :: 0 <= i < |s| ==> s[i] in B58
  }

  function DigitOf(c: char): (d: nat)
    requires c in B58
    ensures d < 58 && B58[d] == c
  {
    Position(c).value
  }

  function Indices(s: string): (d: seq<int>)
    requires InAlphabet(s)
    ensures |d| == |s| && InBase(d, 58)
    ensures forall i :: 0 <= i < |s| ==> d[i] == DigitOf(s[i])
  {
    seq(|s|, i requires 0 <= i < |s| => DigitOf(s[i]))
  }

  function Letters(d: seq<int>): (s: string)
    requires InBase(d, 58)
    ensures |s| == |d| && InAlphabet(s)
    ensures forall i :: 0 <= i < |d| ==> s[i] == B58[d[i]]
  {
    seq(|d|, i requires 0 <= i < |d| => B58[d[i]])
  }

  lemma LettersIndices(d: seq<int>)
    requires InBase(d, 58)
    ensures Indices(Letters(d)) == d
  {
    forall i | 0 <= i < |d| ensures Indices(Letters(d))[i] == d[i] {
      PositionOfLetter(d[i]);
    }
  }

  // ------------------------------------------------------------ what the functions mean

  ghost function EncodeSpec(bytes: seq<byte>): (s: string)
    ensures InAlphabet(s)
  {
    Letters(Convert(bytes, 256, 58))
  }

  ghost function DecodeSpec(s: string): (r: Option<seq<byte>>) {
    if InAlphabet(s) then
      var x := Convert(Indices(s), 58, 256);
      assert forall i :: 0 <= i < |x| ==> 0 <= x[i] < 256;
      Some(x)
    else None
  }

  /** Decoding undoes encoding, for every byte string. */
  lemma DecodeEncode(bytes: seq<byte>)
    ensures DecodeSpec(EncodeSpec(bytes)) == Some(bytes)
  {
    var d := Convert(bytes, 256, 58);
    LettersIndices(d);
    ConvertInverts(bytes, 256, 58);
  }

  /** Encoding undoes decoding, for every string over the alphabet; any other
      string is refused. */
  lemma EncodeDecode(s: string)
    ensures DecodeSpec(s).Some? <==> InAlphabet(s)
    ensures DecodeSpec(s).Some? ==> EncodeSpec(DecodeSpec(s).value) == s
  {
    if InAlphabet(s) {
      ConvertInverts(Indices(s), 58, 256);
      assert Letters(Indices(s)) == s;
    }
  }

  // ------------------------------------------------------------ the loops

  /** The body both functions share: `digits` times `mult` plus `add`, in place,
      carrying upward and pushing what is left over. */
  method Accumulate(digits: seq<int>, mult: nat, add: nat, base: nat) returns (out: seq<int>)
    requires 2 <= base <= 256 && 0 < mult <= 256 && add < mult && InBase(digits, base)
    ensures out == MulAdd(digits, mult, add, base)
  {
    out := digits;
    var carry := add;
    var j := 0;
    while j < |out|
      invariant 0 <= j <= |out| == |digits|
      invariant 0 <= carry < mult && InBase(out, base)
      invariant out[..j] + MulAdd(out[j..], mult, carry, base) == MulAdd(digits, mult, add, base)
    {
      var v := out[j] * mult + carry;
      CarryStaysSmall(out[j], mult, carry, base);
      assert v < 0x1_0000_0000;  // fits the u32 the source computes in
      ghost var before := out;
      out := out[j := v % base];
      assert before[j..][1..] == out[j + 1..];
      assert out[..j + 1] == before[..j] + [v % base];
      carry := v / base;
      j := j + 1;
    }
    assert out[..j] == out && out[j..] == [];
    while carry > 0
      invariant carry >= 0 && out + Digits(carry, base) == MulAdd(digits, mult, add, base)
      decreases carry
    {
      Shrinks(carry, base);
      out := out + [carry % base];
      carry := carry / base;
    }
  }

  lemma BelowIfProductIs(v: nat, base: nat, q: nat, mult: nat)
    requires base > 0 && q * base <= v < base * mult
    ensures q < mult
  {
    if q >= mult {
      MulMono(base, mult, q);
    }
  }

  lemma CarryStaysSmall(d: nat, mult: nat, carry: nat, base: nat)
    requires 2 <= base <= 256 && 0 < mult <= 256 && d < base && carry < mult
    ensures 0 <= d * mult + carry < base * mult <= 0x1_0000
    ensures 0 <= (d * mult + carry) / base < mult
  {
    MulMono(mult, 0, d);
    MulMono(mult, d + 1, base);
    MulMono(mult, base, 256);
    var v := d * mult + carry;
    QuotientNonNegative(v, base);
    DivModEq(v, base);
    BelowIfProductIs(v, base, v / base, mult);
  }

  /** One turn of either outer loop takes in one more digit of the input. */
  lemma NextDigit(x: seq<int>, k: nat, from: nat, to: nat)
    requires from >= 2 && to >= 2 && k < |x| && InBase(x, from)
    ensures MulAdd(Digits(Value(x[..k], from), to), from, x[k], to) == Digits(Value(x[..k + 1], from), to)
  {
    assert x[..k + 1] == x[..k] + [x[k]];
    ValueOnTheEnd(x[..k], x[k], from);
    MulAddIsExact(Value(x[..k], from), from, x[k], to);
  }

  lemma OneMoreDigit(seen: seq<int>, d: nat, from: nat, to: nat)
    requires from >= 2 && to >= 2 && InBase(seen, from) && d < from
    ensures InBase(seen + [d], from)
    ensures MulAdd(Digits(Value(seen, from), to), from, d, to) == Digits(Value(seen + [d], from), to)
  {
    var v := Value(seen, from);
    ValueOnTheEnd(seen, d, from);
    MulAddIsExact(v, from, d, to);
    assert Value(seen + [d], from) == v * from + d;
  }

  method Base58Encode(bytes: seq<byte>) returns (s: string)
    ensures s == EncodeSpec(bytes)
  {
    var digits: seq<int> := [];
    var k := 0;
    while k < |bytes|
      invariant 0 <= k <= |bytes|
      invariant digits == Digits(Value(bytes[..k], 256), 58)
    {
      digits := Accumulate(digits, 256, bytes[k], 58);
      NextDigit(bytes, k, 256, 58);
      k := k + 1;
    }
    assert bytes[..k] == bytes;
    s := WriteLetters(bytes, digits);
  }

  /** The last two loops of the encoder: a '1' for each leading zero byte, then
      `digits.iter().rev()` as letters. */
  method WriteLetters(bytes: seq<byte>, digits: seq<int>) returns (s: string)
    requires InBase(digits, 58)
    ensures s == Letters(Zeros(LeadingZeros(bytes)) + Reverse(digits))
  {
    LetterCode(0);
    s := "";
    var z := 0;
    while z < |bytes| && bytes[z] == 0
      invariant 0 <= z <= LeadingZeros(bytes)
      invariant |s| == z && forall j :: 0 <= j < z ==> s[j] == B58[0]
    {
      s := s + ['1'];
      z := z + 1;
    }
    var i := |digits|;
    while i > 0
      invariant 0 <= i <= |digits|
      invariant |s| == z + |digits| - i && forall j :: 0 <= j < z ==> s[j] == B58[0]
      invariant forall j :: z <= j < |s| ==> s[j] == B58[digits[|digits| - 1 - (j - z)]]
    {
      i := i - 1;
      s := s + [B58[digits[i]]];
    }
  }

  method Base58Decode(s: string) returns (r: Option<seq<byte>>)
    ensures r == DecodeSpec(s)
  {
    var big: seq<int> := [];
    ghost var seen: seq<int> := [];
    var k := 0;
    while k < |s|
      invariant 0 <= k <= |s|
      invariant |seen| == k && InBase(seen, 58)
      invariant forall j :: 0 <= j < k ==> Position(s[j]) == Some(seen[j])
      invariant big == Digits(Value(seen, 58), 256)
    {
      var d := Position(s[k]);
      if d.None? {
        return None;
      }
      big := Accumulate(big, 58, d.value, 256);
      OneMoreDigit(seen, d.value, 58, 256);
      seen := seen + [d.value];
      k := k + 1;
    }
    assert seen == Indices(s);
    var zeros := LeadingOnes(s);
    r := Some(BigEndian(zeros, big));
  }

  /** `take_while(|c| *c == b'1').count()`. */
  method LeadingOnes(s: string) returns (zeros: nat)
    requires InAlphabet(s)
    ensures zeros == LeadingZeros(Indices(s))
  {
    zeros := 0;
    while zeros < |s| && s[zeros] == '1'
      invariant 0 <= zeros <= LeadingZeros(Indices(s))
    {
      OneIsZero(s[zeros]);
      zeros := zeros + 1;
    }
    if zeros < |s| {
      OneIsZero(s[zeros]);
    }
  }

  lemma OneIsZero(c: char)
    requires c in B58
    ensures DigitOf(c) == 0 <==> c == '1'
  {
    LetterCode(0);
    PositionOfLetter(0);
  }

  /** `vec![0; zeros]` followed by the accumulator, most significant byte first. */
  function BigEndian(zeros: nat, big: seq<int>): (out: seq<byte>)
    requires InBase(big, 256)
    ensures out == Zeros(zeros) + Reverse(big)
  {
    Zeros(zeros) + seq(|big|, i requires 0 <= i < |big| => big[|big| - 1 - i])
  }
}
