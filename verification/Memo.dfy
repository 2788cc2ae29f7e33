/** The tagged memos of a shielded note (src/memo.rs). */
module Memo {
  import opened Prelude
  import opened Wire
  import opened Text

  const MEMO_TAG: seq<byte> := [0x5A, 0x45, 0x43]         // "ZEC"
  const ANCHOR_TAG: seq<byte> := [0x5A, 0x45, 0x41]       // "ZEA"
  const PUBLISH_TAG: seq<byte> := [0x5A, 0x45, 0x50]      // "ZEP"
  const FORCED_TAG: seq<byte> := [0x5A, 0x45, 0x46]       // "ZEF"
  const APP_PAYMENT_TAG: seq<byte> := [0x5A, 0x45, 0x42]  // "ZEB"
  const TEXT_PREFIX: seq<byte> := [0x5A, 0x45, 0x43, 0x31, 0x3A]  // "ZEC1:"

  const MEMO_VERSION: byte := 1
  const APP_PAYMENT_VERSION: byte := 1

  const MEMO_LEN: nat := 36
  const MEMO_FIELD: nat := 512
  const ANCHOR_LEN: nat := 48
  const PUBLISH_LEN: nat := 36
  const FORCED_HEADER: nat := 6
  const FORCED_MAX: nat := 506
  const APP_PAYMENT_LEN: nat := 69

  /** A signing scheme's tag and a key to the account it controls: a hash. */
  type AccountOf = (byte, seq<byte>) -> Hash

  datatype MemoError = NotADeposit | UnknownVersion(v: byte) | Malformed | TrailingBytes

  /** What reading a memo comes to: an answer, or a panic where text is sliced
      inside a character. */
  datatype Reading = Returned(r: Result<Hash, MemoError>) | Panicked

  function Fails(e: MemoError): Reading { Returned(Err(e)) }

  function Names(account: Hash): Reading { Returned(Ok(account)) }

  datatype AppPayment = AppPayment(purpose: byte, reference: Hash, recipient: Hash)

  datatype AppError =
    | NotAppPayment
    | AppUnknownVersion(version: byte)
    | InvalidPurpose(code: byte)
    | AppMalformed
    | AppTrailingBytes

  predicate AllZero(b: seq<byte>) {
    forall i :: 0 <= i < |b| ==> b[i] == 0
  }

  predicate Tagged(m: seq<byte>, tag: seq<byte>) {
    |m| >= |tag| && m[..|tag|] == tag
  }

  // ------------------------------------------------------------ the readers

  predicate IsAnchor(m: seq<byte>) {
    |m| >= ANCHOR_LEN && Tagged(m, ANCHOR_TAG) && m[3] == MEMO_VERSION && AllZero(m[ANCHOR_LEN..])
  }

  function Publication(m: seq<byte>): Option<Hash> {
    if |m| < PUBLISH_LEN || !Tagged(m, PUBLISH_TAG) || m[3] != MEMO_VERSION || !AllZero(m[PUBLISH_LEN..]) then None
    else Some(HashOf(m[4..PUBLISH_LEN]))
  }

  predicate IsPublication(m: seq<byte>) {
    Publication(m).Some?
  }

  predicate HasAppPaymentTag(m: seq<byte>) {
    Tagged(m, APP_PAYMENT_TAG)
  }

  function DecodeAppPayment(m: seq<byte>): Result<AppPayment, AppError> {
    if !HasAppPaymentTag(m) then Err(NotAppPayment)
    else if |m| < APP_PAYMENT_LEN then Err(AppMalformed)
    else if m[3] != APP_PAYMENT_VERSION then Err(AppUnknownVersion(m[3]))
    else if m[4] == 0 then Err(InvalidPurpose(m[4]))
    else if !AllZero(m[APP_PAYMENT_LEN..]) then Err(AppTrailingBytes)
    else
      var reference, recipient := HashOf(m[5..37]), HashOf(m[37..APP_PAYMENT_LEN]);
      if reference == 0 || recipient == 0 then Err(AppMalformed)
      else Ok(AppPayment(m[4], reference, recipient))
  }

  function ForcedFrame(m: seq<byte>): Option<seq<byte>> {
    if |m| < FORCED_HEADER || !Tagged(m, FORCED_TAG) || m[3] != MEMO_VERSION then None
    else
      var len := FromBe(m[4..6]);
      if len == 0 || FORCED_HEADER + len > |m| then None
      else if !AllZero(m[FORCED_HEADER + len..]) then None
      else Some(m[FORCED_HEADER..FORCED_HEADER + len])
  }

  /** Who a frame is from, for the schemes whose key is its own account. */
  function ForcedAccount(frame: seq<byte>, accountOf: AccountOf): Option<Hash> {
    if |frame| < 73 then None
    else if frame[40] == 1 || frame[40] == 3 then Some(accountOf(frame[40], frame[41..73]))
    else None
  }

  function FirstZero(m: seq<byte>): (n: nat)
    ensures n <= |m|
  {
    if m == [] || m[0] == 0 then 0 else 1 + FirstZero(m[1..])
  }

  function Decode(m: seq<byte>): Reading {
    if Tagged(m, TEXT_PREFIX) then
      var end := FirstZero(m);
      if !Utf8(m[..end]) then Fails(Malformed)
      else if !AllZero(m[end..]) then Fails(TrailingBytes)
      else DecodeText(m[..end])
    else if |m| < MEMO_LEN || !Tagged(m, MEMO_TAG) then Fails(NotADeposit)
    else if m[3] != MEMO_VERSION then Fails(UnknownVersion(m[3]))
    else if !AllZero(m[MEMO_LEN..]) then Fails(TrailingBytes)
    else Names(HashOf(m[4..MEMO_LEN]))
  }

  /** A memo whose reading returns. */
  type Readable = m: seq<byte> | !Decode(m).Panicked? witness []

  // ------------------------------------------------------------ the text form

  const ZERO: byte := 48   // '0'
  const NINE: byte := 57   // '9'
  const COLON: byte := 58  // ':'
  const PLUS: byte := 43   // '+'

  function HexDigit(b: byte): (v: Option<nat>)
    ensures v.Some? ==> v.value < 16
  {
    if ZERO <= b <= NINE then Some(b - ZERO)
    else if 97 <= b <= 102 then Some(b - 87)
    else if 65 <= b <= 70 then Some(b - 55)
    else None
  }

  /** `u8::from_str_radix` of two characters: it takes a leading plus sign. */
  function PairValue(a: byte, b: byte): Option<byte> {
    var low := HexDigit(b);
    if low.None? then None
    else if a == PLUS then Some(low.value)
    else if HexDigit(a).None? then None
    else Some(16 * HexDigit(a).value + low.value)
  }

  /** The i-th two characters as a byte. */
  function PairAt(h: seq<byte>, i: nat): Option<byte>
    requires 2 * i + 1 < |h|
  {
    PairValue(h[2 * i], h[2 * i + 1])
  }

  ghost predicate Spells(h: seq<byte>, bytes: seq<byte>) {
    |h| == 2 * |bytes| && forall i :: 0 <= i < |bytes| ==> PairAt(h, i) == Some(bytes[i])
  }

  /** What the loop of `decode_text` comes to. */
  datatype HexReading = Bytes(bytes: seq<byte>) | NoByte | Cut

  /** The first n pairs as bytes, read one after another: each must be a slice that
      ends between two characters, and two digits. */
  function ReadPairs(h: seq<byte>, n: nat): (r: HexReading)
    requires 2 * n <= |h|
    ensures r.Bytes? ==> |r.bytes| == n
  {
    if n == 0 then Bytes([]) else
      var before := ReadPairs(h, n - 1);
      if !before.Bytes? then before
      else if !Boundary(h, 2 * n - 2) || !Boundary(h, 2 * n) then Cut
      else if PairAt(h, n - 1).None? then NoByte
      else Bytes(before.bytes + [PairAt(h, n - 1).value])
  }

  /** `decode_text`. */
  function DecodeText(t: seq<byte>): Reading {
    var m := Trim(t);
    if !Tagged(m, MEMO_TAG) || |m| < 4 || !Boundary(m[3..], 1) || !(ZERO <= m[3] <= NINE) then Fails(NotADeposit)
    else if m[3] - ZERO != MEMO_VERSION then Fails(UnknownVersion(m[3] - ZERO))
    else if |m| < 5 || m[4] != COLON then Fails(Malformed)
    else if |m| != 69 then Fails(Malformed)
    else
      match ReadPairs(m[5..], 32)
      case Bytes(bytes) => Names(HashOf(bytes))
      case NoByte => Fails(Malformed)
      case Cut => Panicked
  }

  /** `decode_text`, step by step. */
  method ReadText(t: seq<byte>) returns (r: Reading)
    ensures r == DecodeText(t)
  {
    var m := Trim(t);
    if !Tagged(m, MEMO_TAG) { return Fails(NotADeposit); }
    var rest := m[3..];
    if |rest| < 1 || !Boundary(rest, 1) { return Fails(NotADeposit); }
    if !(ZERO <= rest[0] <= NINE) { return Fails(NotADeposit); }
    var version := rest[0] - ZERO;
    if version != MEMO_VERSION { return Fails(UnknownVersion(version)); }
    if |rest| < 2 || rest[1] != COLON { return Fails(Malformed); }
    var hex := rest[2..];
    if |hex| != 64 { return Fails(Malformed); }
    assert hex == m[5..];
    r := ReadHex(hex);
  }

  /** The loop of `decode_text`. */
  method ReadHex(hex: seq<byte>) returns (r: Reading)
    requires |hex| == 64
    ensures r == match ReadPairs(hex, 32)
                 case Bytes(bytes) => Names(HashOf(bytes))
                 case NoByte => Fails(Malformed)
                 case Cut => Panicked
  {
    var out: seq<byte> := [];
    var i := 0;
    while i < 32
      invariant 0 <= i <= 32 && ReadPairs(hex, i) == Bytes(out)
    {
      PairsStop(hex, i + 1, 32);
      if !Boundary(hex, 2 * i) || !Boundary(hex, 2 * i + 2) {
        return Panicked;
      }
      var b := PairAt(hex, i);
      if b.None? {
        return Fails(Malformed);
      }
      out := out + [b.value];
      i := i + 1;
    }
    r := Names(HashOf(out));
  }

  lemma {:induction false} PairsStop(h: seq<byte>, k: nat, n: nat)
    requires k <= n && 2 * n <= |h|
    ensures !ReadPairs(h, k).Bytes? ==> ReadPairs(h, n) == ReadPairs(h, k)
    decreases n
  {
    if k < n {
      PairsStop(h, k, n - 1);
    }
  }

  predicate AllDigits(h: seq<byte>, n: nat)
    requires 2 * n <= |h|
  {
    forall i :: 0 <= i < n ==> PairAt(h, i).Some?
  }

  /** The loop goes through exactly when every pair is two digits (so ASCII). */
  lemma {:induction false} PairsSpell(h: seq<byte>, bytes: seq<byte>, n: nat)
    requires |h| == 2 * |bytes| && n <= |bytes|
    ensures ReadPairs(h, n) == Bytes(bytes[..n])
       <==> Boundary(h, 2 * n) && forall i :: 0 <= i < n ==> PairAt(h, i) == Some(bytes[i])
  {
    if n > 0 {
      var k := n - 1;
      PairsSpell(h, bytes, k);
      assert bytes[..n] == bytes[..k] + [bytes[k]];
      assert PairAt(h, k) == Some(bytes[k]) ==> h[2 * k] < 128;
    }
  }

  lemma HexSpells(h: seq<byte>, bytes: seq<byte>)
    requires |h| == 64 && |bytes| == 32
    ensures ReadPairs(h, 32) == Bytes(bytes) <==> Spells(h, bytes)
  {
    PairsSpell(h, bytes, 32);
    assert bytes[..32] == bytes;
  }

  /** The pair at i ends inside a character and the pairs before it are digits. */
  predicate CutAt(h: seq<byte>, i: nat) {
    2 * i + 2 < |h| && Continues(h[2 * i + 2]) && AllDigits(h, i)
  }

  /** It cuts a character exactly when such a pair is reached. */
  lemma {:induction false} PairsCut(h: seq<byte>, n: nat)
    requires 2 * n <= |h|
    ensures ReadPairs(h, n).Cut? <==> exists i :: 0 <= i < n && CutAt(h, i)
    ensures ReadPairs(h, n).Bytes? ==> AllDigits(h, n) && Boundary(h, 2 * n)
    ensures AllDigits(h, n) ==> !ReadPairs(h, n).NoByte?
  {
    if n > 0 {
      var k := n - 1;
      PairsCut(h, k);
      assert AllDigits(h, n) ==> AllDigits(h, k);
      assert 2 * n == 2 * k + 2;
      if ReadPairs(h, k).Bytes? {
        assert CutAt(h, k) <==> !Boundary(h, 2 * n);
      }
      forall i | 0 <= i < n && CutAt(h, i) ensures i < k || ReadPairs(h, k).Bytes? || ReadPairs(h, k).Cut? {
      }
    }
  }

  function HexLetter(v: nat): (b: byte)
    requires v < 16
    ensures HexDigit(b) == Some(v) && Lower(b) == b
  {
    if v < 10 then ZERO + v else 87 + v
  }

  /** ASCII lower case. */
  function Lower(b: byte): byte {
    if 65 <= b <= 90 then b + 32 else b
  }

  /** Two lower-case digits for each byte. */
  function HexOf(bytes: seq<byte>): (h: seq<byte>)
    ensures |h| == 2 * |bytes|
    ensures forall i :: 0 <= i < |bytes| ==>
              h[2 * i] == HexLetter(bytes[i] / 16) && h[2 * i + 1] == HexLetter(bytes[i] % 16)
  {
    if bytes == [] then [] else
      var n := |bytes| - 1;
      HexOf(bytes[..n]) + [HexLetter(bytes[n] / 16), HexLetter(bytes[n] % 16)]
  }

  lemma HexNext(prefix: seq<byte>, bytes: seq<byte>, i: nat)
    requires i < |bytes|
    ensures prefix + HexOf(bytes[..i + 1])
         == prefix + HexOf(bytes[..i]) + [HexLetter(bytes[i] / 16), HexLetter(bytes[i] % 16)]
  {
    assert bytes[..i + 1][..i] == bytes[..i];
    Assoc(prefix, HexOf(bytes[..i]), [HexLetter(bytes[i] / 16), HexLetter(bytes[i] % 16)]);
  }

  /** `encode_text`. */
  function EncodeText(account: Hash): (t: seq<byte>)
    ensures |t| == 69
  {
    TEXT_PREFIX + HexOf(Be(account, 32))
  }

  /** The loop of `encode_text`. */
  method WriteText(account: Hash) returns (t: seq<byte>)
    ensures t == EncodeText(account)
  {
    var bytes := Be(account, 32);
    t := MEMO_TAG + [ZERO + MEMO_VERSION] + [COLON];
    assert t == TEXT_PREFIX;
    var i := 0;
    while i < |bytes|
      invariant 0 <= i <= |bytes| && t == TEXT_PREFIX + HexOf(bytes[..i])
    {
      HexNext(TEXT_PREFIX, bytes, i);
      t := t + [HexLetter(bytes[i] / 16), HexLetter(bytes[i] % 16)];
      i := i + 1;
    }
    assert bytes[..i] == bytes;
  }

  // ------------------------------------------------------------ the writers

  function Encode(account: Hash): (m: seq<byte>)
    ensures |m| == MEMO_FIELD
  {
    MEMO_TAG + [MEMO_VERSION] + Be(account, 32) + Zeros(476)
  }

  function EncodePublication(digest: Hash): (m: seq<byte>)
    ensures |m| == MEMO_FIELD
  {
    PUBLISH_TAG + [MEMO_VERSION] + Be(digest, 32) + Zeros(476)
  }

  function EncodeForced(frame: seq<byte>): (m: Option<seq<byte>>)
    ensures m.Some? ==> |m.value| == MEMO_FIELD
  {
    if frame == [] || |frame| > FORCED_MAX then None
    else Some(FORCED_TAG + [MEMO_VERSION] + Be(|frame|, 2) + frame + Zeros(FORCED_MAX - |frame|))
  }

  function EncodeAppPayment(p: AppPayment): (m: Result<seq<byte>, AppError>)
    ensures m.Ok? ==> |m.value| == MEMO_FIELD
  {
    if p.reference == 0 || p.recipient == 0 then Err(AppMalformed)
    else
      Ok(APP_PAYMENT_TAG + [APP_PAYMENT_VERSION] + [p.purpose] + Be(p.reference, 32) + Be(p.recipient, 32) + Zeros(443))
  }

  // ------------------------------------------------------------ one memo, one meaning

  predicate NamesNobody(m: seq<byte>) {
    Decode(m).Returned? && Decode(m).r.Err?
  }

  /** No memo reads as two things: the tags part company at their third byte. */
  lemma OneReading(m: seq<byte>)
    ensures IsAnchor(m) ==> !IsPublication(m) && !HasAppPaymentTag(m) && ForcedFrame(m).None? && NamesNobody(m)
    ensures IsPublication(m) ==> !HasAppPaymentTag(m) && ForcedFrame(m).None? && NamesNobody(m)
    ensures HasAppPaymentTag(m) ==> ForcedFrame(m).None? && NamesNobody(m)
    ensures ForcedFrame(m).Some? ==> NamesNobody(m)
  {
    TagByte(m, MEMO_TAG);
    TagByte(m, ANCHOR_TAG);
    TagByte(m, PUBLISH_TAG);
    TagByte(m, FORCED_TAG);
    TagByte(m, APP_PAYMENT_TAG);
    TagByte(m, TEXT_PREFIX);
  }

  lemma TagByte(m: seq<byte>, tag: seq<byte>)
    requires |tag| >= 3
    ensures Tagged(m, tag) ==> |m| >= 3 && m[2] == tag[2]
  {
    if Tagged(m, tag) {
      assert m[..|tag|][2] == m[2];
    }
  }

  // ------------------------------------------------------------ writers and readers are inverse

  /** What is written for an account is read back; and a full-length memo that is
      not text names an account exactly when it is the one written for it. */
  lemma DepositMemo(account: Hash, m: seq<byte>)
    ensures !Tagged(Encode(account), TEXT_PREFIX) && Decode(Encode(account)) == Names(account)
    ensures |m| == MEMO_FIELD && !Tagged(m, TEXT_PREFIX) ==> (Decode(m) == Names(account) <==> m == Encode(account))
  {
    HashOfBe(account);
    var e := Encode(account);
    assert e[..3] == MEMO_TAG && e[3] == MEMO_VERSION && e[4..36] == Be(account, 32);
    assert e[..5][3] != TEXT_PREFIX[3];
    if |m| == MEMO_FIELD && !Tagged(m, TEXT_PREFIX) && Decode(m) == Names(account) {
      assert m == m[..3] + [m[3]] + m[4..36] + m[36..];
    }
  }

  // ---- text

  /** Text names an account exactly when, trimmed, it is the prefix and thirty-two
      pairs that spell the account's bytes. */
  lemma TextMeans(t: seq<byte>, account: Hash)
    ensures DecodeText(t) == Names(account) <==>
              var m := Trim(t); |m| == 69 && m[..5] == TEXT_PREFIX && Spells(m[5..], Be(account, 32))
  {
    var m := Trim(t);
    HashOfBe(account);
    if |m| == 69 {
      PrefixIs(m);
      HexSpells(m[5..], Be(account, 32));
    }
  }

  /** Reading text panics exactly when, trimmed, it is the prefix and sixty-four
      bytes in which a pair ends inside a character before any pair is read that
      is no two digits. */
  lemma PanicsExactlyWhen(t: seq<byte>)
    ensures DecodeText(t).Panicked? <==>
              var m := Trim(t);
              |m| == 69 && m[..5] == TEXT_PREFIX && exists i :: 0 <= i < 32 && CutAt(m[5..], i)
  {
    var m := Trim(t);
    if |m| == 69 {
      PrefixIs(m);
      PairsCut(m[5..], 32);
    }
  }

  /** Reading a memo does exactly when it is text of that kind up to its padding. */
  lemma MemoPanicsExactlyWhen(m: seq<byte>)
    ensures var end := FirstZero(m);
            Decode(m).Panicked? <==>
              && Tagged(m, TEXT_PREFIX) && Utf8(m[..end]) && AllZero(m[end..])
              && DecodeText(m[..end]).Panicked?
  {
  }

  lemma PrefixIs(m: seq<byte>)
    requires |m| >= 5
    ensures m[..5] == TEXT_PREFIX <==> Tagged(m, MEMO_TAG) && m[3] == ZERO + MEMO_VERSION && m[4] == COLON
  {
    assert m[..5] == m[..3] + [m[3]] + [m[4]];
    assert TEXT_PREFIX == MEMO_TAG + [ZERO + MEMO_VERSION] + [COLON];
  }

  const CUT_LETTER: seq<byte> := [0xC3, 0xA9]

  /** "ZEC1:a", a letter of two bytes, and zeros to the full length: text a wallet can send. */
  function CutText(): (t: seq<byte>)
    ensures |t| == 69
  {
    TEXT_PREFIX + [0x61] + CUT_LETTER + seq(61, _ => ZERO)
  }

  lemma LetterIsText()
    ensures Utf8(CUT_LETTER)
  {
    assert CharLen(CUT_LETTER) == 2 && CUT_LETTER[2..] == [];
  }

  lemma CutTextIsText()
    ensures Utf8(CutText())
  {
    LetterIsText();
    AsciiIsText(TEXT_PREFIX + [0x61]);
    AsciiIsText(seq(61, _ => ZERO));
    TextAfterText(TEXT_PREFIX + [0x61], CUT_LETTER);
    TextAfterText(TEXT_PREFIX + [0x61] + CUT_LETTER, seq(61, _ => ZERO));
  }

  lemma CutTextIsTrimmed()
    ensures Trim(CutText()) == CutText()
  {
    var t := CutText();
    assert t[0] == TEXT_PREFIX[0] && t[68] == ZERO;
    TrimmedAround([], t, []);
    assert [] + t + [] == t;
  }

  lemma CutTextPanics()
    ensures DecodeText(CutText()).Panicked?
  {
    var t := CutText();
    CutTextIsTrimmed();
    assert t[..5] == TEXT_PREFIX;
    assert t[5..][2] == t[7] == CUT_LETTER[1];
    assert CutAt(t[5..], 0);
    PanicsExactlyWhen(t);
  }

  lemma CutTextHasNoZero()
    ensures forall i :: 0 <= i < 69 ==> CutText()[i] != 0
  {
  }

  lemma PaddedPanics(m: seq<byte>, t: seq<byte>, padding: nat)
    requires m == t + Zeros(padding) && FirstZero(m) == |t| && Utf8(t) && Tagged(t, TEXT_PREFIX)
    requires DecodeText(t).Panicked?
    ensures Decode(m).Panicked?
  {
    assert m[..|t|] == t && m[|t|..] == Zeros(padding);
    assert m[..5] == t[..5];
  }

  /** Its reading panics, in a memo of any length. */
  lemma OneMemoPanics(padding: nat)
    ensures Decode(CutText() + Zeros(padding)).Panicked?
  {
    CutTextIsText();
    CutTextPanics();
    CutTextHasNoZero();
    FirstZeroAfter(CutText(), padding);
    PaddedPanics(CutText() + Zeros(padding), CutText(), padding);
  }

  lemma HexOfSpells(bytes: seq<byte>)
    ensures Spells(HexOf(bytes), bytes)
  {
    forall i | 0 <= i < |bytes| ensures PairAt(HexOf(bytes), i) == Some(bytes[i]) {
      LetterIsNoSign(bytes[i] / 16);
      LetterIsNoSign(bytes[i] % 16);
    }
  }

  lemma LetterIsNoSign(v: nat)
    requires v < 16
    ensures HexLetter(v) != PLUS && Solid(HexLetter(v)) && 0 < HexLetter(v)
  {
  }

  /** What is written as text is read back, with any white space around it. */
  lemma TextRoundTrip(account: Hash, before: seq<byte>, after: seq<byte>)
    requires Blank(before) && Blank(after)
    ensures DecodeText(before + EncodeText(account) + after) == Names(account)
  {
    var t, bytes := EncodeText(account), Be(account, 32);
    LetterIsNoSign(bytes[31] % 16);
    assert t[68] == HexOf(bytes)[63] == HexLetter(bytes[31] % 16);
    TrimmedAround(before, t, after);
    HexOfSpells(bytes);
    assert t[..5] == TEXT_PREFIX && t[5..] == HexOf(bytes);
    TextMeans(before + t + after, account);
  }

  /** Typed into a field padded with zeros, it names the account as well. */
  lemma TypedMemo(account: Hash, padding: nat)
    ensures Decode(EncodeText(account) + Zeros(padding)) == Names(account)
  {
    var t := EncodeText(account);
    var m := t + Zeros(padding);
    TextIsAscii(account);
    FirstZeroAfter(t, padding);
    TextRoundTrip(account, [], []);
    assert [] + t + [] == t;
    PaddedText(m, t, padding);
  }

  lemma PaddedText(m: seq<byte>, t: seq<byte>, padding: nat)
    requires m == t + Zeros(padding) && FirstZero(m) == |t| && Ascii(t) && Tagged(t, TEXT_PREFIX)
    ensures Decode(m) == DecodeText(t)
  {
    AsciiIsText(t);
    assert m[..|t|] == t && m[|t|..] == Zeros(padding);
    assert m[..5] == t[..5];
  }

  lemma TextIsAscii(account: Hash)
    ensures forall i :: 0 <= i < 69 ==> 0 < EncodeText(account)[i] < 128
  {
    var t, bytes := EncodeText(account), Be(account, 32);
    forall i | 0 <= i < 69 ensures 0 < t[i] < 128 {
      if i >= 5 {
        var k := (i - 5) / 2;
        LetterIsNoSign(bytes[k] / 16);
        LetterIsNoSign(bytes[k] % 16);
        assert t[i] == HexOf(bytes)[i - 5];
        assert i - 5 == 2 * k || i - 5 == 2 * k + 1;
      }
    }
  }

  lemma {:induction false} FirstZeroAfter(t: seq<byte>, padding: nat)
    requires forall i :: 0 <= i < |t| ==> t[i] != 0
    ensures FirstZero(t + Zeros(padding)) == |t|
  {
    if t == [] {
      assert t + Zeros(padding) == Zeros(padding);
    } else {
      assert (t + Zeros(padding))[1..] == t[1..] + Zeros(padding);
      FirstZeroAfter(t[1..], padding);
    }
  }

  // ---- text that is nearly right

  function LowerAll(t: seq<byte>): (l: seq<byte>)
    ensures |l| == |t| && forall i :: 0 <= i < |t| ==> l[i] == Lower(t[i])
  {
    seq(|t|, i requires 0 <= i < |t| => Lower(t[i]))
  }

  lemma DigitIsWritten(b: byte, v: nat)
    requires HexDigit(b) == Some(v)
    ensures b != PLUS && Lower(b) == HexLetter(v)
  {
  }

  lemma PairIsWritten(a: byte, b: byte, v: byte)
    requires PairValue(a, b) == Some(v)
    ensures b != PLUS && Lower(b) == HexLetter(v % 16)
    ensures Lower(a) == HexLetter(v / 16) <==> a != PLUS
  {
    var low := HexDigit(b).value;
    DigitIsWritten(b, low);
    if a == PLUS {
      assert v % 16 == low;
      LetterIsNoSign(v / 16);
    } else {
      var high := HexDigit(a).value;
      assert v / 16 == high && v % 16 == low;
      DigitIsWritten(a, high);
    }
  }

  ghost predicate WrittenAt(h: seq<byte>, bytes: seq<byte>, i: nat)
    requires |h| == 2 * |bytes| && i < |bytes|
  {
    && h[2 * i + 1] != PLUS && Lower(h[2 * i + 1]) == HexLetter(bytes[i] % 16)
    && (Lower(h[2 * i]) == HexLetter(bytes[i] / 16) <==> h[2 * i] != PLUS)
  }

  lemma SpelledAt(h: seq<byte>, bytes: seq<byte>, i: nat)
    requires Spells(h, bytes) && i < |bytes|
    ensures WrittenAt(h, bytes, i)
  {
    assert PairAt(h, i) == Some(bytes[i]);
    PairIsWritten(h[2 * i], h[2 * i + 1], bytes[i]);
  }

  /** Which place of which pair. */
  lemma PairOf(j: nat) returns (i: nat)
    ensures i == j / 2 && (j == 2 * i || j == 2 * i + 1)
  {
    i := j / 2;
  }

  lemma SpelledIsWritten(h: seq<byte>, bytes: seq<byte>)
    requires Spells(h, bytes)
    ensures LowerAll(h) == HexOf(bytes) <==> PLUS !in h
  {
    if PLUS !in h {
      forall j | 0 <= j < |h| ensures LowerAll(h)[j] == HexOf(bytes)[j] {
        var i := PairOf(j);
        SpelledAt(h, bytes, i);
        assert h[2 * i] in h;
      }
    } else {
      var j :| 0 <= j < |h| && h[j] == PLUS;
      var i := PairOf(j);
      SpelledAt(h, bytes, i);
      assert LowerAll(h)[2 * i] != HexOf(bytes)[2 * i];
    }
  }

  /** Text that is read is, but for case and the white space around it, the text
      that is written, exactly when there is no plus sign in it. */
  lemma StrictExactlyWithoutPlus(t: seq<byte>, account: Hash)
    requires DecodeText(t) == Names(account)
    ensures Trim(t)[..5] + LowerAll(Trim(t)[5..]) == EncodeText(account) <==> PLUS !in t
  {
    var m, bytes := Trim(t), Be(account, 32);
    TextMeans(t, account);
    SpelledIsWritten(m[5..], bytes);
    TrimKeeps(t, PLUS);
    assert m == m[..5] + m[5..];
    assert EncodeText(account)[5..] == HexOf(bytes);
    assert (m[..5] + LowerAll(m[5..]))[5..] == LowerAll(m[5..]);
  }

  lemma PlusSpells(h: seq<byte>, bytes: seq<byte>, k: nat)
    requires Spells(h, bytes) && k < |bytes| && bytes[k] < 16
    ensures Spells(h[2 * k := PLUS], bytes)
  {
    var g := h[2 * k := PLUS];
    forall i | 0 <= i < |bytes| ensures PairAt(g, i) == Some(bytes[i]) {
      assert PairAt(h, i) == Some(bytes[i]);
      assert g[2 * i + 1] == h[2 * i + 1] && (i != k ==> g[2 * i] == h[2 * i]);
    }
  }

  lemma SpelledText(t: seq<byte>, account: Hash)
    requires |t| == 69 && t[..5] == TEXT_PREFIX && Spells(t[5..], Be(account, 32)) && Solid(t[68])
    ensures DecodeText(t) == Names(account)
  {
    assert t[0] == TEXT_PREFIX[0];
    TrimmedAround([], t, []);
    assert [] + t + [] == t;
    TextMeans(t, account);
  }

  /** A plus sign passes for the zero of any byte below sixteen. */
  lemma PlusForZero(account: Hash, k: nat)
    requires k < 32 && Be(account, 32)[k] < 16
    ensures var t := EncodeText(account)[5 + 2 * k := PLUS]; PLUS in t && DecodeText(t) == Names(account)
  {
    var bytes := Be(account, 32);
    HexOfSpells(bytes);
    LastLetter(bytes);
    PlusSpells(HexOf(bytes), bytes, k);
    PlusAt(HexOf(bytes), account, 2 * k, 5 + 2 * k);
  }

  lemma LastLetter(bytes: seq<byte>)
    requires |bytes| == 32
    ensures Solid(HexOf(bytes)[63])
  {
    assert HexOf(bytes)[2 * 31 + 1] == HexLetter(bytes[31] % 16);
    LetterIsNoSign(bytes[31] % 16);
  }

  lemma PlusAt(h: seq<byte>, account: Hash, j: nat, at: nat)
    requires |h| == 64 && j < 64 && at == 5 + j && Solid(h[63]) && Spells(h[j := PLUS], Be(account, 32))
    ensures var t := (TEXT_PREFIX + h)[at := PLUS]; PLUS in t && DecodeText(t) == Names(account)
  {
    UpdateAfter(TEXT_PREFIX, h, j, at, PLUS);
    assert h[j := PLUS][j] == PLUS;
    PlusText(h[j := PLUS], account);
  }

  lemma PlusText(h: seq<byte>, account: Hash)
    requires |h| == 64 && Spells(h, Be(account, 32)) && Solid(h[63])
    ensures DecodeText(TEXT_PREFIX + h) == Names(account)
    ensures forall b :: b in h ==> b in TEXT_PREFIX + h
  {
    var t := TEXT_PREFIX + h;
    assert t[..5] == TEXT_PREFIX && t[5..] == h && t[68] == h[63];
    SpelledText(t, account);
  }

  lemma UpdateAfter(a: seq<byte>, b: seq<byte>, j: nat, at: nat, x: byte)
    requires j < |b| && at == |a| + j
    ensures (a + b)[at := x] == a + b[j := x]
  {
  }

  /** So a text no writer writes names an account, that of zeros for one. */
  lemma PlusIsTolerated() returns (t: seq<byte>)
    ensures PLUS in t && DecodeText(t) == Names(0)
  {
    ZeroBytes(32);
    PlusForZero(0, 0);
    t := EncodeText(0)[5 := PLUS];
  }

  lemma {:induction false} ZeroBytes(w: nat)
    ensures Be(0, w) == Zeros(w)
  {
    if w > 0 {
      ZeroBytes(w - 1);
    }
  }

  lemma PublicationMemo(digest: Hash, m: seq<byte>)
    ensures Publication(EncodePublication(digest)) == Some(digest)
    ensures |m| == MEMO_FIELD && Publication(m) == Some(digest) ==> m == EncodePublication(digest)
  {
    HashOfBe(digest);
    var e := EncodePublication(digest);
    assert e[..3] == PUBLISH_TAG && e[3] == MEMO_VERSION && e[4..36] == Be(digest, 32);
    if |m| == MEMO_FIELD && Publication(m) == Some(digest) {
      assert m == m[..3] + [m[3]] + m[4..36] + m[36..];
    }
  }

  lemma Width2(n: nat)
    requires n <= FORCED_MAX
    ensures FromBe(Be(n, 2)) == n
  {
    assert Width(2) == 256 * Width(1) == 65536;
    FromBeOfBe(n, 2);
  }

  /** A frame that fits is read back; one that does not is never written; and a
      full-length memo that reads as a frame is the one written for it. */
  lemma ForcedMemo(frame: seq<byte>, m: seq<byte>)
    ensures EncodeForced(frame).Some? <==> 0 < |frame| <= FORCED_MAX
    ensures EncodeForced(frame).Some? ==> ForcedFrame(EncodeForced(frame).value) == Some(frame)
    ensures |m| == MEMO_FIELD && ForcedFrame(m) == Some(frame) ==> EncodeForced(frame) == Some(m)
  {
    if 0 < |frame| <= FORCED_MAX {
      ForcedForward(frame);
    }
    if |m| == MEMO_FIELD && ForcedFrame(m) == Some(frame) {
      ForcedBackward(m, frame);
    }
  }

  lemma ForcedBackward(m: seq<byte>, frame: seq<byte>)
    requires |m| == MEMO_FIELD && ForcedFrame(m) == Some(frame)
    ensures EncodeForced(frame) == Some(m)
  {
    BeOfFromBe(m[4..6]);
    var end := FORCED_HEADER + |frame|;
    assert |frame| == FromBe(m[4..6]);
    assert m[end..] == Zeros(FORCED_MAX - |frame|);
    assert m == m[..3] + [m[3]] + m[4..6] + m[6..end] + m[end..];
  }

  lemma ForcedForward(frame: seq<byte>)
    requires 0 < |frame| <= FORCED_MAX
    ensures ForcedFrame(EncodeForced(frame).value) == Some(frame)
  {
    Width2(|frame|);
    var e := EncodeForced(frame).value;
    assert e[..3] == FORCED_TAG && e[3] == MEMO_VERSION && e[4..6] == Be(|frame|, 2);
    assert e[6..6 + |frame|] == frame;
  }

  /** An application payment with a purpose is read back, and a full-length memo
      that reads as one is the one written for it; a zero purpose is written by
      the writer and refused by the reader. */
  lemma AppPaymentMemo(p: AppPayment, m: seq<byte>)
    ensures EncodeAppPayment(p).Ok? <==> p.reference != 0 && p.recipient != 0
    ensures EncodeAppPayment(p).Ok? ==> (DecodeAppPayment(EncodeAppPayment(p).value) == Ok(p) <==> p.purpose != 0)
    ensures |m| == MEMO_FIELD && DecodeAppPayment(m) == Ok(p) ==> EncodeAppPayment(p) == Ok(m)
  {
    if p.reference != 0 && p.recipient != 0 {
      HashOfBe(p.reference);
      HashOfBe(p.recipient);
      var e := EncodeAppPayment(p).value;
      assert e[..3] == APP_PAYMENT_TAG && e[3] == APP_PAYMENT_VERSION && e[4] == p.purpose;
      assert e[5..37] == Be(p.reference, 32) && e[37..69] == Be(p.recipient, 32);
    }
    if |m| == MEMO_FIELD && DecodeAppPayment(m) == Ok(p) {
      AppPaymentBackward(m, p);
    }
  }

  lemma AppPaymentBackward(m: seq<byte>, p: AppPayment)
    requires |m| == MEMO_FIELD && DecodeAppPayment(m) == Ok(p)
    ensures EncodeAppPayment(p) == Ok(m)
  {
    assert m[5..37] == Be(p.reference, 32) && m[37..69] == Be(p.recipient, 32);
    assert m[69..] == Zeros(443);
    assert m == m[..3] + [m[3]] + [m[4]] + m[5..37] + m[37..69] + m[69..];
  }
}
