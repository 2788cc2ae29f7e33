/** The memos each reader accepts, byte for byte and at every length
    (src/memo.rs:123-335). */
module MemoForms {
  import opened Prelude
  import opened Wire
  import opened Text
  import opened Memo

  /** These bytes, then nothing but zeros. */
  ghost predicate Padded(m: seq<byte>, front: seq<byte>) {
    |m| >= |front| && m[..|front|] == front && forall i :: |front| <= i < |m| ==> m[i] == 0
  }

  lemma PaddedIs(m: seq<byte>, n: nat)
    requires n <= |m|
    ensures AllZero(m[n..]) <==> forall i :: n <= i < |m| ==> m[i] == 0
  {
    if AllZero(m[n..]) {
      forall i | n <= i < |m| ensures m[i] == 0 {
        assert m[n..][i - n] == 0;
      }
    }
  }

  lemma TagIs(m: seq<byte>, tag: seq<byte>)
    requires |tag| == 3
    ensures Tagged(m, tag) <==> |m| >= 3 && m[0] == tag[0] && m[1] == tag[1] && m[2] == tag[2]
  {
    if |m| >= 3 {
      assert m[..3] == [m[0], m[1], m[2]] && tag == [tag[0], tag[1], tag[2]];
    }
  }

  /** An anchor: "ZEA", one, and forty-four bytes. */
  lemma AnchorExactlyWhen(m: seq<byte>)
    ensures IsAnchor(m) <==> |m| >= 48 && Padded(m, [0x5A, 0x45, 0x41, 1] + m[4..48])
  {
    TagIs(m, ANCHOR_TAG);
    if |m| >= 48 {
      PaddedIs(m, 48);
      FrontIs(m, ANCHOR_TAG, 48);
    }
  }

  /** A memo's first bytes, apart. */
  lemma FrontIs(m: seq<byte>, tag: seq<byte>, n: nat)
    requires 4 <= n <= |m| && |tag| == 3
    ensures m[..n] == tag + [1] + m[4..n] <==> m[0] == tag[0] && m[1] == tag[1] && m[2] == tag[2] && m[3] == 1
  {
    var front := tag + [1] + m[4..n];
    assert m[..n] == [m[0], m[1], m[2], m[3]] + m[4..n];
    if m[..n] == front {
      assert m[..n][0] == front[0] && m[..n][1] == front[1] && m[..n][2] == front[2] && m[..n][3] == front[3];
    }
  }

  lemma BodyIs(m: seq<byte>, from: nat, body: seq<byte>, front: seq<byte>)
    requires from + |body| <= |m| && |front| == from
    ensures m[..from + |body|] == front + body <==> m[..from] == front && m[from..from + |body|] == body
  {
    var n := from + |body|;
    assert m[..n] == m[..from] + m[from..n];
    if m[..n] == front + body {
      assert m[..from] == m[..n][..from] == front;
      assert m[from..n] == m[..n][from..] == body;
    }
  }

  lemma HashIs(b: Bytes32, h: Hash)
    ensures HashOf(b) == h <==> b == Be(h, 32)
  {
    HashOfBe(h);
  }

  /** A publication: "ZEP", one, and the digest. */
  lemma PublicationExactlyWhen(m: seq<byte>, digest: Hash)
    ensures Publication(m) == Some(digest) <==> Padded(m, [0x5A, 0x45, 0x50, 1] + Be(digest, 32))
  {
    TagIs(m, PUBLISH_TAG);
    if |m| >= 36 {
      PaddedIs(m, 36);
      HashIs(m[4..36], digest);
      BodyIs(m, 4, Be(digest, 32), [0x5A, 0x45, 0x50, 1]);
      assert m[..4] == [m[0], m[1], m[2], m[3]];
    }
  }

  /** A deposit in bytes: "ZEC", one, and the account. */
  lemma DepositExactlyWhen(m: seq<byte>, account: Hash)
    requires !Tagged(m, TEXT_PREFIX)
    ensures Decode(m) == Names(account) <==> Padded(m, [0x5A, 0x45, 0x43, 1] + Be(account, 32))
  {
    TagIs(m, MEMO_TAG);
    if |m| >= 36 {
      PaddedIs(m, 36);
      HashIs(m[4..36], account);
      BodyIs(m, 4, Be(account, 32), [0x5A, 0x45, 0x43, 1]);
      assert m[..4] == [m[0], m[1], m[2], m[3]];
    }
  }

  /** What is wrong with one that is no text: no tag or too short, the version, or
      what follows, the first of these that is. */
  lemma DepositErrors(m: seq<byte>)
    requires !Tagged(m, TEXT_PREFIX)
    ensures var tagged := |m| >= 36 && m[0] == 0x5A && m[1] == 0x45 && m[2] == 0x43;
            && (Decode(m) == Fails(NotADeposit) <==> !tagged)
            && (forall v :: Decode(m) == Fails(UnknownVersion(v)) <==> tagged && m[3] == v && v != 1)
            && (Decode(m) == Fails(TrailingBytes) <==>
                  tagged && m[3] == 1 && exists i :: 36 <= i < |m| && m[i] != 0)
            && Decode(m) != Fails(Malformed) && Decode(m).Returned?
  {
    TagIs(m, MEMO_TAG);
    if |m| >= 36 {
      PaddedIs(m, 36);
    }
  }

  /** Text, trimmed, with the tag and a digit after it. */
  predicate TextTagged(m: seq<byte>) {
    |m| >= 4 && m[0] == 0x5A && m[1] == 0x45 && m[2] == 0x43 && 48 <= m[3] <= 57
  }

  lemma TagEnds(m: seq<byte>)
    requires Utf8(m) && TextTagged(m)
    ensures Boundary(m[3..], 1)
  {
    AsciiIsText(m[..4]);
    BoundaryExactlyWhenText(m, 4);
  }

  /** What is wrong with text that names nobody: no tag with a digit, the version, or
      anything after it, the first of these that is. */
  lemma TextErrors(t: seq<byte>)
    requires Utf8(t)
    ensures var m, r := Trim(t), DecodeText(t);
            && (r == Fails(NotADeposit) <==> !TextTagged(m))
            && (forall v: byte :: r == Fails(UnknownVersion(v)) <==> TextTagged(m) && m[3] == 48 + v && v != 1)
            && r != Fails(TrailingBytes)
            && (r == Fails(Malformed) <==>
                  TextTagged(m) && m[3] == 49 && !r.Panicked? && forall a :: r != Names(a))
  {
    var m := Trim(t);
    TrimIsText(t);
    TagIs(m, MEMO_TAG);
    if TextTagged(m) {
      TagEnds(m);
    }
  }

  /** A memo that starts as text is text up to its first zero, and zeros after it. */
  lemma TextMemo(m: seq<byte>) returns (end: nat)
    requires |m| >= 5 && m[0] == 0x5A && m[1] == 0x45 && m[2] == 0x43 && m[3] == 0x31 && m[4] == 0x3A
    ensures end <= |m| && (forall i :: 0 <= i < end ==> m[i] != 0) && (end < |m| ==> m[end] == 0)
    ensures Decode(m) == if !Utf8(m[..end]) then Fails(Malformed)
                         else if exists i :: end <= i < |m| && m[i] != 0 then Fails(TrailingBytes)
                         else DecodeText(m[..end])
  {
    end := FirstZero(m);
    FirstZeroIs(m);
    PaddedIs(m, end);
    assert m[..5] == [m[0], m[1], m[2], m[3], m[4]] == TEXT_PREFIX;
    assert Tagged(m, TEXT_PREFIX);
  }

  lemma {:induction false} FirstZeroIs(m: seq<byte>)
    ensures var n := FirstZero(m);
            n <= |m| && (forall i :: 0 <= i < n ==> m[i] != 0) && (n < |m| ==> m[n] == 0)
  {
    if m != [] && m[0] != 0 {
      FirstZeroIs(m[1..]);
      var n := FirstZero(m);
      assert forall i :: 1 <= i < n ==> m[i] == m[1..][i - 1];
      assert n < |m| ==> m[n] == m[1..][n - 1];
    }
  }

  /** The digits: nought to nine, and either case from ten to fifteen. */
  lemma DigitExactlyWhen(b: byte, v: nat)
    ensures HexDigit(b) == Some(v) <==>
              (v < 10 && b == 48 + v) || (10 <= v < 16 && (b == 87 + v || b == 55 + v))
  {
  }

  /** Two characters are a byte as two digits, or as a plus sign and a digit. */
  lemma PairExactlyWhen(a: byte, b: byte, v: byte)
    ensures PairValue(a, b) == Some(v) <==>
              || (a == 43 && HexDigit(b) == Some(v))
              || (HexDigit(a) == Some(v / 16) && HexDigit(b) == Some(v % 16))
  {
  }

  lemma CaseOfDigit(a: byte, b: byte)
    requires Lower(a) == Lower(b)
    ensures HexDigit(a) == HexDigit(b) && (a == PLUS <==> b == PLUS)
  {
  }

  /** The case of the digits makes no difference to what they spell. */
  lemma CaseDoesNotMatter(h: seq<byte>, g: seq<byte>, bytes: seq<byte>)
    requires LowerAll(h) == LowerAll(g)
    ensures Spells(h, bytes) <==> Spells(g, bytes)
  {
    assert |h| == |g|;
    forall i | 0 <= i < |h| ensures Lower(h[i]) == Lower(g[i]) {
      assert LowerAll(h)[i] == LowerAll(g)[i];
    }
    forall i | 0 <= i && 2 * i + 1 < |h| ensures PairAt(h, i) == PairAt(g, i) {
      CaseOfDigit(h[2 * i], g[2 * i]);
      CaseOfDigit(h[2 * i + 1], g[2 * i + 1]);
    }
  }

  /** A forced frame: "ZEF", one, its length, not nought, and the frame. */
  lemma FrameExactlyWhen(m: seq<byte>, frame: seq<byte>)
    ensures ForcedFrame(m) == Some(frame) <==>
              0 < |frame| < 0x1_0000 && Padded(m, [0x5A, 0x45, 0x46, 1] + Be(|frame|, 2) + frame)
  {
    if |m| >= 6 {
      LengthIs(m[4..6]);
      ReadsFrame(m, frame, FromBe(m[4..6]));
      if |m| >= 6 + |frame| {
        PaddedFrame(m, frame, 6 + |frame|);
      }
    }
  }

  lemma ReadsFrame(m: seq<byte>, frame: seq<byte>, len: nat)
    requires |m| >= 6 && len == FromBe(m[4..6])
    ensures ForcedFrame(m) == Some(frame) <==>
              && m[0] == 0x5A && m[1] == 0x45 && m[2] == 0x46 && m[3] == 1
              && 0 < len == |frame| && 6 + len <= |m| && m[6..6 + len] == frame
              && forall i :: 6 + len <= i < |m| ==> m[i] == 0
  {
    TagIs(m, FORCED_TAG);
    if 6 + len <= |m| {
      PaddedIs(m, 6 + len);
    }
  }

  lemma PaddedFrame(m: seq<byte>, frame: seq<byte>, end: nat)
    requires end == 6 + |frame| <= |m|
    ensures Padded(m, [0x5A, 0x45, 0x46, 1] + Be(|frame|, 2) + frame) <==>
              && m[0] == 0x5A && m[1] == 0x45 && m[2] == 0x46 && m[3] == 1
              && m[4..6] == Be(|frame|, 2) && m[6..end] == frame && forall i :: end <= i < |m| ==> m[i] == 0
  {
    FrameFront(m, frame);
  }

  lemma LengthIs(b: seq<byte>)
    requires |b| == 2
    ensures FromBe(b) < 0x1_0000 && forall n: nat :: n < 0x1_0000 ==> (FromBe(b) == n <==> b == Be(n, 2))
  {
    BeOfFromBe(b);
    assert Width(2) == 256 * Width(1) == 256 * 256;
    forall n: nat | n < 0x1_0000 ensures FromBe(b) == n <==> b == Be(n, 2) {
      FromBeOfBe(n, 2);
    }
  }

  lemma FrameFront(m: seq<byte>, frame: seq<byte>)
    requires |m| >= 6
    ensures |m| >= 6 + |frame| ==>
              var front := [0x5A, 0x45, 0x46, 1] + Be(|frame|, 2) + frame;
              (m[..6 + |frame|] == front <==>
                 && m[0] == 0x5A && m[1] == 0x45 && m[2] == 0x46 && m[3] == 1
                 && m[4..6] == Be(|frame|, 2) && m[6..6 + |frame|] == frame)
  {
    if |m| >= 6 + |frame| {
      var head: seq<byte> := [0x5A, 0x45, 0x46, 1];
      BodyIs(m, 6, frame, head + Be(|frame|, 2));
      BodyIs(m, 4, Be(|frame|, 2), head);
      assert m[..4] == [m[0], m[1], m[2], m[3]];
    }
  }

  /** An application payment: "ZEB", one, a purpose, a reference and a recipient,
      none of them nought. */
  lemma PaymentExactlyWhen(m: seq<byte>, p: AppPayment)
    ensures DecodeAppPayment(m) == Ok(p) <==>
              && p.purpose != 0 && p.reference != 0 && p.recipient != 0
              && Padded(m, [0x5A, 0x45, 0x42, 1, p.purpose] + Be(p.reference, 32) + Be(p.recipient, 32))
  {
    TagIs(m, APP_PAYMENT_TAG);
    if |m| >= 69 {
      PaddedIs(m, 69);
      HashIs(m[5..37], p.reference);
      HashIs(m[37..69], p.recipient);
      var head: seq<byte> := [0x5A, 0x45, 0x42, 1, p.purpose];
      BodyIs(m, 37, Be(p.recipient, 32), head + Be(p.reference, 32));
      BodyIs(m, 5, Be(p.reference, 32), head);
      assert m[..5] == [m[0], m[1], m[2], m[3], m[4]];
    }
  }

  /** What is wrong with one, the first of these that is: no tag, too short, the
      version, the purpose, what follows, or a nought where none may be. */
  lemma PaymentErrors(m: seq<byte>)
    ensures var tagged := |m| >= 3 && m[0] == 0x5A && m[1] == 0x45 && m[2] == 0x42;
            var r := DecodeAppPayment(m);
            && (HasAppPaymentTag(m) <==> tagged)
            && (r == Err(NotAppPayment) <==> !tagged)
            && (tagged && |m| < 69 ==> r == Err(AppMalformed))
            && (tagged && |m| >= 69 ==>
                  && (forall v :: r == Err(AppUnknownVersion(v)) <==> m[3] == v && v != 1)
                  && (forall v :: r == Err(InvalidPurpose(v)) <==> m[3] == 1 && m[4] == v == 0)
                  && (r == Err(AppTrailingBytes) <==>
                        m[3] == 1 && m[4] != 0 && exists i :: 69 <= i < |m| && m[i] != 0)
                  && (r == Err(AppMalformed) <==>
                        && m[3] == 1 && m[4] != 0 && (forall i :: 69 <= i < |m| ==> m[i] == 0)
                        && (m[5..37] == Zeros(32) || m[37..69] == Zeros(32))))
  {
    TagIs(m, APP_PAYMENT_TAG);
    if |m| >= 69 {
      PaddedIs(m, 69);
      ZeroBytes(32);
      HashIs(m[5..37], 0);
      HashIs(m[37..69], 0);
    }
  }
}
