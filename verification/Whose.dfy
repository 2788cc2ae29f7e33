/** Whom a note is for, told from the transaction as it came: what `take`,
    `classify_addressed` and the stores make of it (src/shielded.rs:286-420, 491-548,
    820-860, 1091-1128). */
module Whose {
  import opened Prelude
  import opened Amount
  import opened Notes
  import opened Memo
  import opened Watcher
  import opened Shielded
  import opened Scanner
  import opened FeedRuns
  import opened Observe

  // ------------------------------------------------------------ what a memo says

  /** Who signed the frame of a forced memo, when its scheme tells. */
  function Signer(memo: seq<byte>, keys: Keys): Option<AccountId> {
    var frame := ForcedFrame(memo);
    if frame.Some? && |frame.value| >= 73 && (frame.value[40] == 1 || frame.value[40] == 3)
    then Some(keys.accountOf(frame.value[40], frame.value[41..73])) else None
  }

  /** Whom a memo names: as a deposit, or by the frame it carries. */
  function Named(memo: Readable, keys: Keys): Option<AccountId> {
    if Decode(memo).r.Ok? then Some(Decode(memo).r.value) else Signer(memo, keys)
  }

  /** A note of ours that is no stamp of the vault's and claims no application. */
  predicate IsMoney(a: RawAction) {
    && a.decrypted.Some?
    && !IsAnchor(a.decrypted.value.1) && !IsPublication(a.decrypted.value.1)
    && !HasAppPaymentTag(a.decrypted.value.1)
  }

  /** A note of ours that claims an application without a payment to it. */
  predicate IsMalformed(a: RawAction) {
    a.decrypted.Some? && HasAppPaymentTag(a.decrypted.value.1) && DecodeAppPayment(a.decrypted.value.1).Err?
  }

  /** What a strict scan stops at. */
  predicate Unnamed(a: RawAction, keys: Keys, attributed: bool) {
    IsMalformed(a) || (IsMoney(a) && Named(a.decrypted.value.1, keys).None? && !attributed)
  }

  /** An action as it is kept, with what is said of its note. */
  function Kept(a: RawAction, note: Note, keys: Keys, account: Option<AccountId>, frame: Option<seq<byte>>)
    : ScannedAction
    requires a.decrypted.Some?
  {
    ScannedAction(a.pool, a.cmx, a.nullifier, Some(note), account, Some(a.decrypted.value.1), keys.indexOf(note), false,
                  frame, None, false)
  }

  function DepositTo(txid: Hash, account: AccountId, note: Note, height: nat): ObservedDeposit {
    ObservedDeposit(txid, account, note.value * 10_000_000_000, height, None)
  }

  /** A memo that names an account makes a deposit to it, whatever is attributed. */
  lemma MemoNames(
      a: RawAction, keys: Keys, txid: Hash, height: nat, n: nat, attributions: map<Hash, AccountId>, lenient: bool,
      account: AccountId)
    requires a.decrypted.Some? && Decode(a.decrypted.value.1) == Names(account)
    ensures var note := a.decrypted.value.0;
            TakeSpec(a, keys, txid, height, n, attributions, lenient)
              == Took(Kept(a, note, keys, Some(account), None), Some(DepositTo(txid, account, note, height)), None,
                      None)
  {
    OneReading(a.decrypted.value.1);
  }

  /** A frame whose signer can be told makes a deposit to the signer, and is shown. */
  lemma FrameNames(
      a: RawAction, keys: Keys, txid: Hash, height: nat, n: nat, attributions: map<Hash, AccountId>, lenient: bool,
      account: AccountId)
    requires a.decrypted.Some? && Signer(a.decrypted.value.1, keys) == Some(account)
    ensures var (note, memo) := a.decrypted.value;
            var sighting := ForcedSighting(txid, height, note.value * 10_000_000_000, ForcedFrame(memo).value);
            TakeSpec(a, keys, txid, height, n, attributions, lenient)
              == Took(Kept(a, note, keys, Some(account), ForcedFrame(memo)),
                      Some(DepositTo(txid, account, note, height)), Some(sighting), None)
  {
    OneReading(a.decrypted.value.1);
  }

  /** Of money that names nobody the attribution tells, or a lenient scan keeps it as it is. */
  lemma NobodyNamed(
      a: RawAction, keys: Keys, txid: Hash, height: nat, n: nat, attributions: map<Hash, AccountId>, lenient: bool)
    requires IsMoney(a) && Named(a.decrypted.value.1, keys).None?
    ensures var note := a.decrypted.value.0;
            TakeSpec(a, keys, txid, height, n, attributions, lenient)
              == if txid in attributions then
                   Took(Kept(a, note, keys, Some(attributions[txid]), None),
                        Some(DepositTo(txid, attributions[txid], note, height)), None, None)
                 else if lenient then Took(Kept(a, note, keys, None, None), None, None, None)
                 else Refused(note.value * 10_000_000_000)
  {
  }

  /** A note not ours, a stamp and an application payment make no deposit; an
      application that is no payment stops a strict scan. */
  lemma NotMoney(
      a: RawAction, keys: Keys, txid: Hash, height: nat, n: nat, attributions: map<Hash, AccountId>, lenient: bool)
    requires !IsMoney(a)
    ensures var plain := ScannedAction(a.pool, a.cmx, a.nullifier, None, None, None, None, false, None, None, false);
            var t := TakeSpec(a, keys, txid, height, n, attributions, lenient);
            if a.decrypted.None? then t == Took(plain, None, None, None)
            else
              var (note, memo) := a.decrypted.value;
              var kept := Kept(a, note, keys, None, None);
              if HasAppPaymentTag(memo) then
                if DecodeAppPayment(memo).Ok? then
                  var p := DecodeAppPayment(memo).value;
                  t == Took(kept.(appPayment := Some(p), appReserved := true), None, None,
                            Some(AppPaymentOutput(txid, height, n, note.value * 10_000_000_000, p)))
                else if lenient then t == Took(kept.(appReserved := true), None, None, None)
                else t == Refused(note.value * 10_000_000_000)
              else t == Took(kept.(anchor := true), None, None, None)
  {
    if a.decrypted.Some? {
      OneReading(a.decrypted.value.1);
    }
  }

  /** An attribution decides exactly where no memo names anybody. */
  lemma AttributedExactlyWhenNobodyNamed(
      a: RawAction, keys: Keys, txid: Hash, height: nat, n: nat, attributions: map<Hash, AccountId>, lenient: bool,
      x: AccountId, y: AccountId)
    requires x != y
    ensures TakeSpec(a, keys, txid, height, n, attributions[txid := x], lenient)
         != TakeSpec(a, keys, txid, height, n, attributions[txid := y], lenient)
       <==> IsMoney(a) && Named(a.decrypted.value.1, keys).None?
  {
    if !IsMoney(a) {
      NotMoney(a, keys, txid, height, n, attributions[txid := x], lenient);
      NotMoney(a, keys, txid, height, n, attributions[txid := y], lenient);
    } else if Named(a.decrypted.value.1, keys).None? {
      NobodyNamed(a, keys, txid, height, n, attributions[txid := x], lenient);
      NobodyNamed(a, keys, txid, height, n, attributions[txid := y], lenient);
      assert attributions[txid := x][txid] != attributions[txid := y][txid];
    } else if Decode(a.decrypted.value.1).r.Ok? {
      MemoNames(a, keys, txid, height, n, attributions[txid := x], lenient, Decode(a.decrypted.value.1).r.value);
      MemoNames(a, keys, txid, height, n, attributions[txid := y], lenient, Decode(a.decrypted.value.1).r.value);
    } else {
      FrameNames(a, keys, txid, height, n, attributions[txid := x], lenient, Signer(a.decrypted.value.1, keys).value);
      FrameNames(a, keys, txid, height, n, attributions[txid := y], lenient, Signer(a.decrypted.value.1, keys).value);
    }
  }

  // ------------------------------------------------------------ a strict or lenient scan

  /** Whom a scan names for an action, and the deposit it makes of it. */
  function ScanDeposit(a: RawAction, keys: Keys, txid: Hash, height: nat, attributions: map<Hash, AccountId>)
    : Option<ObservedDeposit>
  {
    if !IsMoney(a) then None
    else if Named(a.decrypted.value.1, keys).Some? then
      Some(DepositTo(txid, Named(a.decrypted.value.1, keys).value, a.decrypted.value.0, height))
    else if txid in attributions then Some(DepositTo(txid, attributions[txid], a.decrypted.value.0, height))
    else None
  }

  function ScanDeposits(
      raw: seq<RawAction>, keys: Keys, txid: Hash, height: nat, attributions: map<Hash, AccountId>)
    : seq<ObservedDeposit>
  {
    if raw == [] then [] else
      var one := ScanDeposit(raw[|raw| - 1], keys, txid, height, attributions);
      ScanDeposits(raw[..|raw| - 1], keys, txid, height, attributions) + if one.Some? then [one.value] else []
  }

  /** The forced frames a transaction carries. */
  function Frames(raw: seq<RawAction>, keys: Keys, txid: Hash, height: nat): seq<ForcedSighting> {
    if raw == [] then [] else
      var a := raw[|raw| - 1];
      Frames(raw[..|raw| - 1], keys, txid, height)
        + if a.decrypted.Some? && Signer(a.decrypted.value.1, keys).Some?
          then [ForcedSighting(txid, height, a.decrypted.value.0.value * 10_000_000_000,
                               ForcedFrame(a.decrypted.value.1).value)]
          else []
  }

  /** The application payments it carries, each with its place. */
  function Paid(raw: seq<RawAction>, txid: Hash, height: nat): seq<AppPaymentOutput> {
    if raw == [] then [] else
      var n := |raw| - 1;
      Paid(raw[..n], txid, height)
        + if raw[n].decrypted.Some? && DecodeAppPayment(raw[n].decrypted.value.1).Ok?
          then [AppPaymentOutput(txid, height, n, raw[n].decrypted.value.0.value * 10_000_000_000,
                                 DecodeAppPayment(raw[n].decrypted.value.1).value)]
          else []
  }

  lemma MoneyNames(memo: Readable, keys: Keys)
    ensures Named(memo, keys).Some? ==> !IsAnchor(memo) && !IsPublication(memo) && !HasAppPaymentTag(memo)
  {
    OneReading(memo);
  }

  lemma TakenDeposit(
      a: RawAction, keys: Keys, txid: Hash, height: nat, n: nat, attributions: map<Hash, AccountId>, lenient: bool)
    ensures var t := TakeSpec(a, keys, txid, height, n, attributions, lenient);
            && (t.Took? ==> t.deposit == ScanDeposit(a, keys, txid, height, attributions))
            && (t.Refused? <==> !lenient && Unnamed(a, keys, txid in attributions))
            && (t.Refused? ==> t.amount == a.decrypted.value.0.value * 10_000_000_000)
  {
    if !IsMoney(a) {
      NotMoney(a, keys, txid, height, n, attributions, lenient);
      if a.decrypted.Some? {
        OneReading(a.decrypted.value.1);
      }
    } else if Named(a.decrypted.value.1, keys).None? {
      NobodyNamed(a, keys, txid, height, n, attributions, lenient);
    } else if Decode(a.decrypted.value.1).r.Ok? {
      MemoNames(a, keys, txid, height, n, attributions, lenient, Decode(a.decrypted.value.1).r.value);
    } else {
      FrameNames(a, keys, txid, height, n, attributions, lenient, Signer(a.decrypted.value.1, keys).value);
    }
  }

  lemma TakenShows(
      a: RawAction, keys: Keys, txid: Hash, height: nat, n: nat, attributions: map<Hash, AccountId>, lenient: bool)
    requires TakeSpec(a, keys, txid, height, n, attributions, lenient).Took?
    ensures var t := TakeSpec(a, keys, txid, height, n, attributions, lenient);
            && (t.sighting.Some? <==> a.decrypted.Some? && Signer(a.decrypted.value.1, keys).Some?)
            && (t.sighting.Some? ==> t.sighting.value == ForcedSighting(
                  txid, height, a.decrypted.value.0.value * 10_000_000_000, ForcedFrame(a.decrypted.value.1).value))
            && (t.output.Some? <==> a.decrypted.Some? && DecodeAppPayment(a.decrypted.value.1).Ok?)
            && (t.output.Some? ==> t.output.value == AppPaymentOutput(
                  txid, height, n, a.decrypted.value.0.value * 10_000_000_000,
                  DecodeAppPayment(a.decrypted.value.1).value))
  {
    if a.decrypted.Some? {
      OneReading(a.decrypted.value.1);
      MoneyNames(a.decrypted.value.1, keys);
    }
  }

  /** What a scan of a transaction finds, told from its actions: the deposits and
      the frames in their order, and the application payments with their places. */
  lemma {:induction false} ScanFinds(
      raw: seq<RawAction>, keys: Keys, txid: Hash, height: nat, attributions: map<Hash, AccountId>, lenient: bool)
    requires ScanSpec(raw, keys, txid, height, attributions, lenient).Ok?
    ensures var s := ScanSpec(raw, keys, txid, height, attributions, lenient).value;
            && s.deposits == ScanDeposits(raw, keys, txid, height, attributions)
            && s.forced == Frames(raw, keys, txid, height)
            && s.appPayments == Paid(raw, txid, height)
  {
    if raw != [] {
      var n := |raw| - 1;
      ScanFinds(raw[..n], keys, txid, height, attributions, lenient);
      TakenDeposit(raw[n], keys, txid, height, n, attributions, lenient);
      TakenShows(raw[n], keys, txid, height, n, attributions, lenient);
    }
  }

  // ------------------------------------------------------------ in a block

  /** The store knows the nullifier: it saw it spent, or it is a note's held or in flight. */
  ghost predicate Knows(s: Store, nf: Hash, key: NullifierOf) {
    || nf in s.spent
    || (exists p :: p in s.held && key(s.held[p].note) == nf)
    || (exists p :: p in s.inFlight && key(s.inFlight[p].note) == nf)
  }

  lemma KnowsIs(s: Store, nf: Hash, key: NullifierOf)
    ensures Recognises(s, nf, key) <==> Knows(s, nf, key)
  {
  }

  /** Some action of the transaction reveals a nullifier its own pool's store knows. */
  ghost predicate OwnSpend(ps: Pools, raw: seq<RawAction>, key: NullifierOf) {
    exists i :: 0 <= i < |raw|
      && Knows(if raw[i].pool == Orchard then ps.orchard else ps.ironwood, raw[i].nullifier, key)
  }

  /** Money at an address that was handed out. */
  predicate Issued(a: RawAction, keys: Keys, handedOut: map<nat, AccountId>)
    requires a.decrypted.Some?
  {
    var index := keys.indexOf(a.decrypted.value.0);
    index.Some? && index.value != 0 && index.value in handedOut
  }

  /** Whom the money is for: by address, by memo, back to the vault as change, or
      as attributed, the first of these that tells. */
  function Whom(
      a: RawAction, keys: Keys, own: bool, attributed: Option<AccountId>, handedOut: map<nat, AccountId>)
    : Option<AccountId>
    requires IsMoney(a)
  {
    if Issued(a, keys, handedOut) then Some(handedOut[keys.indexOf(a.decrypted.value.0).value])
    else if Named(a.decrypted.value.1, keys).Some? then Named(a.decrypted.value.1, keys)
    else if own then Some(0)
    else attributed
  }

  /** A note nobody can be found for. */
  predicate IsStray(
      a: RawAction, keys: Keys, own: bool, attributed: Option<AccountId>, handedOut: map<nat, AccountId>)
  {
    IsMalformed(a) || (IsMoney(a) && Whom(a, keys, own, attributed, handedOut).None?)
  }

  /** The credits of a transaction: one for each note that is for somebody. */
  function Credits(
      raw: seq<RawAction>, keys: Keys, own: bool, attributed: Option<AccountId>, handedOut: map<nat, AccountId>,
      txid: Hash, height: nat): seq<ObservedDeposit>
  {
    if raw == [] then [] else
      var a := raw[|raw| - 1];
      Credits(raw[..|raw| - 1], keys, own, attributed, handedOut, txid, height)
        + if !IsMoney(a) then [] else
            var who := Whom(a, keys, own, attributed, handedOut);
            if who.Some? && who.value != 0 then [DepositTo(txid, who.value, a.decrypted.value.0, height)] else []
  }

  lemma JudgedWhom(a: RawAction, keys: Keys, n: nat, c: Context)
    ensures var t := TakeSpec(a, keys, c.txid, c.height, n, map[], true);
            && t.Took?
            && (Judge(t.action, c).Unattributable? <==> IsStray(a, keys, c.spendsOurs, c.attributed, c.handedOut))
            && (Judge(t.action, c).Unattributable? ==>
                  Judge(t.action, c).amount == a.decrypted.value.0.value * 10_000_000_000)
            && (IsMoney(a) && Judge(t.action, c).Deposit? ==>
                  var who := Whom(a, keys, c.spendsOurs, c.attributed, c.handedOut);
                  who.Some? && who.value != 0
                    && Judge(t.action, c).d == DepositTo(c.txid, who.value, a.decrypted.value.0, c.height))
            && (IsMoney(a) && Judge(t.action, c).Nothing? ==>
                  Whom(a, keys, c.spendsOurs, c.attributed, c.handedOut) == Some(0))
            && (!IsMoney(a) ==> !Judge(t.action, c).Deposit?)
  {
    if !IsMoney(a) {
      NotMoney(a, keys, c.txid, c.height, n, map[], true);
      if a.decrypted.Some? {
        OneReading(a.decrypted.value.1);
      }
    } else if Named(a.decrypted.value.1, keys).None? {
      NobodyNamed(a, keys, c.txid, c.height, n, map[], true);
    } else if Decode(a.decrypted.value.1).r.Ok? {
      MemoNames(a, keys, c.txid, c.height, n, map[], true, Decode(a.decrypted.value.1).r.value);
    } else {
      FrameNames(a, keys, c.txid, c.height, n, map[], true, Signer(a.decrypted.value.1, keys).value);
    }
  }

  /** The actions of a transaction, as a lenient scan takes them. */
  ghost predicate TakenFrom(actions: seq<ScannedAction>, raw: seq<RawAction>, keys: Keys, txid: Hash, height: nat) {
    && |actions| == |raw|
    && forall i :: 0 <= i < |raw| ==>
         var t := TakeSpec(raw[i], keys, txid, height, i, map[], true); t.Took? && actions[i] == t.action
  }

  lemma ReadTakes(t: TxReply, keys: Keys, height: nat)
    requires t.Raw? && |t.actions| <= 0xFFFF_FFFF
    ensures Read(t, keys, height).Some?
    ensures TakenFrom(ActionsOf(t, keys, height), t.actions, keys, t.txid, height)
    ensures Read(t, keys, height).value.forced == Frames(t.actions, keys, t.txid, height)
  {
    LenientReads(t.actions, keys, t.txid, height);
    ScannedCount(t.actions, keys, t.txid, height, map[], true);
    ScanFinds(t.actions, keys, t.txid, height, map[], true);
    forall i | 0 <= i < |t.actions|
      ensures var taken := TakeSpec(t.actions[i], keys, t.txid, height, i, map[], true);
              taken.Took? && ActionsOf(t, keys, height)[i] == taken.action
    {
      ActionsInOrder(t.actions, i, keys, t.txid, height, map[], true);
    }
  }

  /** What a transaction tells: the first stray note stops it, with its value, exactly
      when there is one; else it credits whom each note is for, and shows its frames. */
  ghost predicate Tells(
      r: Result<Found, Scanner.Error>, raw: seq<RawAction>, keys: Keys, own: bool, attributed: Option<AccountId>,
      handedOut: map<nat, AccountId>, txid: Hash, height: nat)
  {
    && (r.Err? <==> exists i :: 0 <= i < |raw| && IsStray(raw[i], keys, own, attributed, handedOut))
    && (r.Err? ==> exists i ::
          && 0 <= i < |raw| && IsStray(raw[i], keys, own, attributed, handedOut)
          && (forall j :: 0 <= j < i ==> !IsStray(raw[j], keys, own, attributed, handedOut))
          && r.error == UnattributableAt(height, raw[i].decrypted.value.0.value * 10_000_000_000))
    && (r.Ok? ==> r.value == (Credits(raw, keys, own, attributed, handedOut, txid, height),
                              Frames(raw, keys, txid, height)))
  }

  lemma ToldWhom(r: Result<Found, Scanner.Error>, ds: Result<seq<ObservedDeposit>, i128>, raw: seq<RawAction>,
                 keys: Keys, c: Context)
    requires Classified(ds, raw, keys, c)
    requires r == match ds case Err(x) => Err(UnattributableAt(c.height, x))
                           case Ok(v) => Ok((v, Frames(raw, keys, c.txid, c.height)))
    ensures Tells(r, raw, keys, c.spendsOurs, c.attributed, c.handedOut, c.txid, c.height)
  {
    StraysAre(ds, raw, keys, c);
  }

  ghost predicate FirstStray(raw: seq<RawAction>, i: nat, keys: Keys, c: Context) {
    && i < |raw| && IsStray(raw[i], keys, c.spendsOurs, c.attributed, c.handedOut)
    && forall j :: 0 <= j < i ==> !IsStray(raw[j], keys, c.spendsOurs, c.attributed, c.handedOut)
  }

  ghost predicate Classified(r: Result<seq<ObservedDeposit>, i128>, raw: seq<RawAction>, keys: Keys, c: Context) {
    && (r.Err? <==> exists i: nat :: FirstStray(raw, i, keys, c))
    && (r.Err? ==> exists i: nat ::
          FirstStray(raw, i, keys, c) && r.error == raw[i].decrypted.value.0.value * 10_000_000_000)
    && (r.Ok? ==> r.value == Credits(raw, keys, c.spendsOurs, c.attributed, c.handedOut, c.txid, c.height))
  }

  lemma ClassifiedNext(
      r: Result<seq<ObservedDeposit>, i128>, s: Result<seq<ObservedDeposit>, i128>, raw: seq<RawAction>, n: nat,
      v: Verdict, keys: Keys, c: Context)
    requires |raw| == n + 1 && Classified(r, raw[..n], keys, c)
    requires v.Unattributable? <==> IsStray(raw[n], keys, c.spendsOurs, c.attributed, c.handedOut)
    requires v.Unattributable? ==> v.amount == raw[n].decrypted.value.0.value * 10_000_000_000
    requires s == match r case Err(e) => Err(e) case Ok(ds) =>
                    match v case Nothing => Ok(ds) case Deposit(d) => Ok(ds + [d]) case Unattributable(x) => Err(x)
    requires s.Ok? ==> s.value == Credits(raw, keys, c.spendsOurs, c.attributed, c.handedOut, c.txid, c.height)
    ensures Classified(s, raw, keys, c)
  {
    assert forall i :: 0 <= i < n ==> raw[..n][i] == raw[i];
    assert forall i: nat :: i < n ==> (FirstStray(raw, i, keys, c) <==> FirstStray(raw[..n], i, keys, c));
    if r.Err? {
      var i: nat :| FirstStray(raw[..n], i, keys, c)
                 && r.error == raw[..n][i].decrypted.value.0.value * 10_000_000_000;
      assert FirstStray(raw, i, keys, c);
    } else if v.Unattributable? {
      NoStrayBefore(raw, n, n, keys, c);
      assert FirstStray(raw, n, keys, c);
    }
  }

  lemma {:induction false} NoStrayBefore(raw: seq<RawAction>, n: nat, k: nat, keys: Keys, c: Context)
    requires k <= n <= |raw| && forall i: nat :: !FirstStray(raw[..n], i, keys, c)
    ensures forall j :: 0 <= j < k ==> !IsStray(raw[j], keys, c.spendsOurs, c.attributed, c.handedOut)
  {
    if k > 0 {
      NoStrayBefore(raw, n, k - 1, keys, c);
      assert !FirstStray(raw[..n], k - 1, keys, c);
      assert forall j :: 0 <= j < n ==> raw[..n][j] == raw[j];
    }
  }

  /** Classification, told from the transaction: it stops at the first stray note
      with its value, exactly when there is one; else it credits whom each is for. */
  lemma {:induction false} ClassifiesWhom(actions: seq<ScannedAction>, raw: seq<RawAction>, keys: Keys, c: Context)
    requires TakenFrom(actions, raw, keys, c.txid, c.height)
    ensures Classified(ClassifySpec(actions, c), raw, keys, c)
  {
    if raw != [] {
      var n := |raw| - 1;
      ClassifiesWhom(actions[..n], raw[..n], keys, c);
      JudgedWhom(raw[n], keys, n, c);
      ClassifiedNext(ClassifySpec(actions[..n], c), ClassifySpec(actions, c), raw, n, Judge(actions[n], c), keys, c);
    }
  }

  lemma OwnSpendIs(ps: Pools, actions: seq<ScannedAction>, raw: seq<RawAction>, key: NullifierOf)
    requires |actions| == |raw|
    requires forall i :: 0 <= i < |raw| ==> actions[i].pool == raw[i].pool && actions[i].nullifier == raw[i].nullifier
    ensures OwnSpend(ps, raw, key)
       <==> SpendsKnown(ps.orchard, actions, Orchard, key) || SpendsKnown(ps.ironwood, actions, Ironwood, key)
  {
    forall s: Store, nf ensures Recognises(s, nf, key) <==> Knows(s, nf, key) {
      KnowsIs(s, nf, key);
    }
    if OwnSpend(ps, raw, key) {
      var i :| 0 <= i < |raw|
            && Knows(if raw[i].pool == Orchard then ps.orchard else ps.ironwood, raw[i].nullifier, key);
      assert raw[i].pool == Orchard || raw[i].pool == Ironwood;
      assert Recognises(if raw[i].pool == Orchard then ps.orchard else ps.ironwood, actions[i].nullifier, key);
    }
  }

  lemma TakenReveals(actions: seq<ScannedAction>, raw: seq<RawAction>, keys: Keys, txid: Hash, height: nat)
    requires TakenFrom(actions, raw, keys, txid, height)
    ensures forall i :: 0 <= i < |raw| ==>
              actions[i].pool == raw[i].pool && actions[i].nullifier == raw[i].nullifier
  {
  }

  function Attributed(attributions: map<Hash, AccountId>, txid: Hash): Option<AccountId> {
    if txid in attributions then Some(attributions[txid]) else None
  }

  /** What feeding a transaction tells: nothing of it fails and none of it is
      credited for being a note without a name in a transaction that spends one of
      our own; in any other the first such note that is not attributed stops it. */
  lemma FeedingTellsWhom(ps: Pools, t: TxReply, height: nat, keys: Keys, attributions: map<Hash, AccountId>)
    requires t.Raw? && |t.actions| <= 0xFFFF_FFFF
    ensures Tells(TxOutcome(ps, t, height, keys, attributions), t.actions, keys,
                  OwnSpend(ps, t.actions, keys.nullifier), Attributed(attributions, t.txid), map[], t.txid, height)
  {
    var own := OwnSpend(ps, t.actions, keys.nullifier);
    var c := Context(own, Attributed(attributions, t.txid), t.txid, height, map[]);
    var actions := ActionsOf(t, keys, height);
    ReadTakes(t, keys, height);
    TakenReveals(actions, t.actions, keys, t.txid, height);
    OwnSpendIs(ps, actions, t.actions, keys.nullifier);
    ClassifiesWhom(actions, t.actions, keys, c);
    assert ContextOf(own, attributions, t.txid, height) == c;
    ToldWhom(TxOutcome(ps, t, height, keys, attributions), ClassifySpec(actions, c), t.actions, keys, c);
  }

  lemma StraysAre(r: Result<seq<ObservedDeposit>, i128>, raw: seq<RawAction>, keys: Keys, c: Context)
    requires Classified(r, raw, keys, c)
    ensures r.Err? <==>
              exists i :: 0 <= i < |raw| && IsStray(raw[i], keys, c.spendsOurs, c.attributed, c.handedOut)
    ensures r.Err? ==> exists i ::
              && 0 <= i < |raw| && IsStray(raw[i], keys, c.spendsOurs, c.attributed, c.handedOut)
              && (forall j :: 0 <= j < i ==> !IsStray(raw[j], keys, c.spendsOurs, c.attributed, c.handedOut))
              && r.error == raw[i].decrypted.value.0.value * 10_000_000_000
  {
    if r.Ok? {
      assert raw[..|raw|] == raw;
      NoStrayBefore(raw, |raw|, |raw|, keys, c);
    }
  }

  /** And scanning it without feeding it, which looks at the register of addresses
      too and knows no own spend without stores. */
  lemma ScanningTellsWhom(ps: Pools, attached: bool, t: TxReply, height: nat, c: Config, keys: Keys)
    requires t.Raw? && |t.actions| <= 0xFFFF_FFFF
    ensures Tells(SeenTx(ps, attached, t, height, c, keys), t.actions, keys,
                  attached && OwnSpend(ps, t.actions, keys.nullifier),
                  Attributed(c.attributions, t.txid), c.handedOut, t.txid, height)
  {
    var own := attached && OwnSpend(ps, t.actions, keys.nullifier);
    var x := Context(own, Attributed(c.attributions, t.txid), t.txid, height, c.handedOut);
    var actions := ActionsOf(t, keys, height);
    ReadTakes(t, keys, height);
    TakenReveals(actions, t.actions, keys, t.txid, height);
    OwnSpendIs(ps, actions, t.actions, keys.nullifier);
    ClassifiesWhom(actions, t.actions, keys, x);
    assert ContextOf(own, c.attributions, t.txid, height).(handedOut := c.handedOut) == x;
    ToldWhom(SeenTx(ps, attached, t, height, c, keys), ClassifySpec(actions, x), t.actions, keys, x);
  }

  // ------------------------------------------------------------ what that comes to

  /** Neither kind of transaction: it cannot be fetched, or it is none of ours to read. */
  lemma OtherAnswers(ps: Pools, attached: bool, t: TxReply, height: nat, c: Config, keys: Keys)
    requires t.Raw? ==> |t.actions| > 0xFFFF_FFFF
    ensures var r: Result<Found, Scanner.Error> := if t.Failed? then Err(Rpc) else Ok(([], []));
            TxOutcome(ps, t, height, keys, c.attributions) == r && SeenTx(ps, attached, t, height, c, keys) == r
  {
    if t.Raw? {
      LenientReads(t.actions, keys, t.txid, height);
    }
  }

  lemma {:induction false} CreditIn(
      raw: seq<RawAction>, i: nat, keys: Keys, own: bool, attributed: Option<AccountId>,
      handedOut: map<nat, AccountId>, txid: Hash, height: nat)
    requires i < |raw| && IsMoney(raw[i])
    requires var who := Whom(raw[i], keys, own, attributed, handedOut); who.Some? && who.value != 0
    ensures DepositTo(txid, Whom(raw[i], keys, own, attributed, handedOut).value, raw[i].decrypted.value.0, height)
         in Credits(raw, keys, own, attributed, handedOut, txid, height)
  {
    var n := |raw| - 1;
    var who := Whom(raw[i], keys, own, attributed, handedOut).value;
    if i < n {
      assert raw[..n][i] == raw[i];
      CreditIn(raw[..n], i, keys, own, attributed, handedOut, txid, height);
      CreditsGrow(raw, DepositTo(txid, who, raw[i].decrypted.value.0, height), keys, own, attributed, handedOut, txid,
                  height);
    } else {
      LastCredit(raw, keys, own, attributed, handedOut, txid, height);
    }
  }

  lemma CreditsGrow(
      raw: seq<RawAction>, d: ObservedDeposit, keys: Keys, own: bool, attributed: Option<AccountId>,
      handedOut: map<nat, AccountId>, txid: Hash, height: nat)
    requires raw != [] && d in Credits(raw[..|raw| - 1], keys, own, attributed, handedOut, txid, height)
    ensures d in Credits(raw, keys, own, attributed, handedOut, txid, height)
  {
  }

  lemma LastCredit(
      raw: seq<RawAction>, keys: Keys, own: bool, attributed: Option<AccountId>, handedOut: map<nat, AccountId>,
      txid: Hash, height: nat)
    requires raw != [] && IsMoney(raw[|raw| - 1])
    requires var who := Whom(raw[|raw| - 1], keys, own, attributed, handedOut); who.Some? && who.value != 0
    ensures var a := raw[|raw| - 1];
            DepositTo(txid, Whom(a, keys, own, attributed, handedOut).value, a.decrypted.value.0, height)
              in Credits(raw, keys, own, attributed, handedOut, txid, height)
  {
  }

  /** The memo written for an account, in bytes or as text with any padding,
      credits that account when its block is fed. */
  lemma WrittenMemoCredits(
      ps: Pools, t: TxReply, i: nat, note: Note, account: AccountId, padding: nat, height: nat, keys: Keys,
      attributions: map<Hash, AccountId>)
    requires t.Raw? && i < |t.actions| <= 0xFFFF_FFFF && t.actions[i].decrypted.Some?
    requires t.actions[i].decrypted.value.0 == note && account != 0
    requires var memo := t.actions[i].decrypted.value.1;
             memo == Encode(account) || memo == EncodeText(account) + Zeros(padding)
    requires TxOutcome(ps, t, height, keys, attributions).Ok?
    ensures ObservedDeposit(t.txid, account, note.value * 10_000_000_000, height, None)
         in TxOutcome(ps, t, height, keys, attributions).value.0
  {
    var memo := t.actions[i].decrypted.value.1;
    DepositMemo(account, memo);
    TypedMemo(account, padding);
    assert Decode(memo) == Names(account);
    MoneyNames(memo, keys);
    FeedingTellsWhom(ps, t, height, keys, attributions);
    CreditIn(t.actions, i, keys, OwnSpend(ps, t.actions, keys.nullifier), Attributed(attributions, t.txid), map[],
             t.txid, height);
  }

  /** A payout's change: a note without a name in a transaction that spends a known
      one, none of its notes a malformed application payment, is fed and not credited. */
  lemma ChangeIsKept(
      ps: Pools, t: TxReply, i: nat, height: nat, keys: Keys, attributions: map<Hash, AccountId>)
    requires t.Raw? && i < |t.actions| <= 0xFFFF_FFFF && forall j :: 0 <= j < |t.actions| ==> !IsMalformed(t.actions[j])
    requires Knows(if t.actions[i].pool == Orchard then ps.orchard else ps.ironwood, t.actions[i].nullifier,
                   keys.nullifier)
    ensures TxOutcome(ps, t, height, keys, attributions).Ok?
    ensures forall d :: d in TxOutcome(ps, t, height, keys, attributions).value.0 ==>
              exists j :: 0 <= j < |t.actions| && t.actions[j].decrypted.Some?
                       && Named(t.actions[j].decrypted.value.1, keys) == Some(d.account)
  {
    FeedingTellsWhom(ps, t, height, keys, attributions);
    assert OwnSpend(ps, t.actions, keys.nullifier);
    OnlyNamed(t.actions, keys, Attributed(attributions, t.txid), t.txid, height);
  }

  lemma {:induction false} OnlyNamed(
      raw: seq<RawAction>, keys: Keys, attributed: Option<AccountId>, txid: Hash, height: nat)
    ensures forall d :: d in Credits(raw, keys, true, attributed, map[], txid, height) ==>
              exists j :: 0 <= j < |raw| && raw[j].decrypted.Some?
                       && Named(raw[j].decrypted.value.1, keys) == Some(d.account)
  {
    if raw != [] {
      var n := |raw| - 1;
      OnlyNamed(raw[..n], keys, attributed, txid, height);
      forall d | d in Credits(raw, keys, true, attributed, map[], txid, height)
        ensures exists j :: 0 <= j < |raw| && raw[j].decrypted.Some?
                         && Named(raw[j].decrypted.value.1, keys) == Some(d.account)
      {
        if d in Credits(raw[..n], keys, true, attributed, map[], txid, height) {
          var j :| 0 <= j < n && raw[..n][j].decrypted.Some?
                && Named(raw[..n][j].decrypted.value.1, keys) == Some(d.account);
          assert raw[j].decrypted.Some?;
        }
      }
    }
  }
}
