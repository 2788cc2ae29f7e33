/** What the notes of one transaction are (src/shielded.rs): the scan of its
    actions and the classification into deposits. Decryption is done before;
    an action arrives with its note and memo, or without. */
module Shielded {
  import opened Prelude
  import opened Amount
  import opened Notes
  import opened Memo
  import opened Watcher

  /** One zatoshi in `Fixed`'s scale. */
  const ZAT: int := 10_000_000_000

  /** The diversifier index of the vault's own address. */
  const VAULT_INDEX: nat := 0

  datatype ValuePool = Orchard | Ironwood

  /** The viewing key, as the functions the scan uses of it. */
  datatype Keys = Keys(
    nullifier: NullifierOf,
    indexOf: Note -> Option<nat>,
    accountOf: AccountOf)

  datatype ScannedAction = ScannedAction(
    pool: ValuePool,
    cmx: Hash,
    nullifier: Hash,
    ours: Option<Note>,
    account: Option<AccountId>,
    memo: Option<seq<byte>>,
    toIndex: Option<nat>,
    anchor: bool,
    forced: Option<seq<byte>>,
    appPayment: Option<AppPayment>,
    appReserved: bool)

  datatype ForcedSighting = ForcedSighting(txid: Hash, height: nat, amount: i128, frame: seq<byte>)

  datatype AppPaymentOutput = AppPaymentOutput(
    txid: Hash, height: nat, outputIndex: nat, amount: i128, payment: AppPayment)

  datatype Scanned = Scanned(
    deposits: seq<ObservedDeposit>,
    actions: seq<ScannedAction>,
    forced: seq<ForcedSighting>,
    appPayments: seq<AppPaymentOutput>)

  datatype ScanError = Undecodable | UnaddressedDeposit(amount: i128)

  /** One action of a transaction, trial decryption done. */
  datatype RawAction = RawAction(pool: ValuePool, cmx: Hash, nullifier: Hash, decrypted: Option<(Note, Readable)>)

  function AmountOf(n: Note): (a: i128)
    ensures a == n.value * ZAT >= 0
  {
    n.value * ZAT
  }

  // ------------------------------------------------------------ taking one action

  /** What `take` adds for one action, or why it stops. */
  datatype Taken =
    | Refused(amount: i128)
    | Took(action: ScannedAction,
           deposit: Option<ObservedDeposit>,
           sighting: Option<ForcedSighting>,
           output: Option<AppPaymentOutput>)

  function Plain(a: RawAction): ScannedAction {
    ScannedAction(a.pool, a.cmx, a.nullifier, None, None, None, None, false, None, None, false)
  }

  function Ours(a: RawAction, note: Note, memo: seq<byte>, keys: Keys): ScannedAction {
    Plain(a).(ours := Some(note), memo := Some(memo), toIndex := keys.indexOf(note))
  }

  function TakeSpec(
      a: RawAction, keys: Keys, txid: Hash, height: nat, outputIndex: nat,
      attributions: map<Hash, AccountId>, lenient: bool): Taken
  {
    match a.decrypted
    case None => Took(Plain(a), None, None, None)
    case Some((note, memo)) =>
      var ours := Ours(a, note, memo, keys);
      var amount := AmountOf(note);
      if IsAnchor(memo) || IsPublication(memo) then Took(ours.(anchor := true), None, None, None)
      else if DecodeAppPayment(memo).Ok? then
        var payment := DecodeAppPayment(memo).value;
        Took(ours.(appPayment := Some(payment), appReserved := true), None, None,
             Some(AppPaymentOutput(txid, height, outputIndex, amount, payment)))
      else if HasAppPaymentTag(memo) then
        if !lenient then Refused(amount) else Took(ours.(appReserved := true), None, None, None)
      else if ForcedFrame(memo).Some? && ForcedAccount(ForcedFrame(memo).value, keys.accountOf).Some? then
        var frame := ForcedFrame(memo).value;
        var account := ForcedAccount(frame, keys.accountOf).value;
        Took(ours.(account := Some(account), forced := Some(frame)),
             Some(ObservedDeposit(txid, account, amount, height, None)),
             Some(ForcedSighting(txid, height, amount, frame)), None)
      else TakeAddressed(ours, Memo.Decode(memo).r, amount, txid, height, attributions, lenient)
  }

  /** The end of `take`: by memo, else by the operator's attribution of the txid. */
  function TakeAddressed(
      ours: ScannedAction, named: Result<Hash, MemoError>, amount: i128, txid: Hash, height: nat,
      attributions: map<Hash, AccountId>, lenient: bool): Taken
  {
    var account :=
      if named.Ok? then Some(named.value)
      else if txid in attributions then Some(attributions[txid])
      else None;
    if account.Some? then
      Took(ours.(account := account), Some(ObservedDeposit(txid, account.value, amount, height, None)), None, None)
    else if lenient then Took(ours, None, None, None)
    else Refused(amount)
  }

  function Added(out: Scanned, t: Taken): Scanned
    requires t.Took?
  {
    Scanned(
      Push(out.deposits, t.deposit),
      out.actions + [t.action],
      Push(out.forced, t.sighting),
      Push(out.appPayments, t.output))
  }

  function Push<T>(xs: seq<T>, x: Option<T>): seq<T> {
    if x.Some? then xs + [x.value] else xs
  }

  /** `take` itself: the branches push into `out`, in the order of the source. */
  method Take(
      out0: Scanned, a: RawAction, keys: Keys, txid: Hash, height: nat, outputIndex: nat,
      attributions: map<Hash, AccountId>, lenient: bool)
    returns (r: Result<Scanned, ScanError>)
    ensures var t := TakeSpec(a, keys, txid, height, outputIndex, attributions, lenient);
            r == if t.Took? then Ok(Added(out0, t)) else Err(UnaddressedDeposit(t.amount))
  {
    var out := out0;
    if a.decrypted.None? {
      out := out.(actions := out.actions + [Plain(a)]);
      return Ok(out);
    }
    var (note, memo) := a.decrypted.value;
    var ours := Ours(a, note, memo, keys);
    var amount := AmountOf(note);
    if IsAnchor(memo) || IsPublication(memo) {
      out := out.(actions := out.actions + [ours.(anchor := true)]);
      return Ok(out);
    }
    var payment := DecodeAppPayment(memo);
    if payment.Ok? {
      var paid := AppPaymentOutput(txid, height, outputIndex, amount, payment.value);
      out := out.(appPayments := out.appPayments + [paid]);
      out := out.(actions := out.actions + [ours.(appPayment := Some(payment.value), appReserved := true)]);
      return Ok(out);
    }
    if HasAppPaymentTag(memo) {
      if !lenient {
        return Err(UnaddressedDeposit(amount));
      }
      out := out.(actions := out.actions + [ours.(appReserved := true)]);
      return Ok(out);
    }
    var frame := ForcedFrame(memo);
    if frame.Some? {
      var signer := ForcedAccount(frame.value, keys.accountOf);
      if signer.Some? {
        out := out.(deposits := out.deposits + [ObservedDeposit(txid, signer.value, amount, height, None)]);
        out := out.(forced := out.forced + [ForcedSighting(txid, height, amount, frame.value)]);
        out := out.(actions := out.actions + [ours.(account := signer, forced := frame)]);
        return Ok(out);
      }
    }
    var named := Memo.Decode(memo).r;
    var account;
    if named.Ok? {
      account := Some(named.value);
    } else if txid in attributions {
      account := Some(attributions[txid]);
    } else if lenient {
      account := None;
    } else {
      return Err(UnaddressedDeposit(amount));
    }
    if account.Some? {
      out := out.(deposits := out.deposits + [ObservedDeposit(txid, account.value, amount, height, None)]);
    }
    out := out.(actions := out.actions + [ours.(account := account)]);
    r := Ok(out);
  }

  // ------------------------------------------------------------ scanning a transaction

  const U32_MAX: nat := 0xFFFF_FFFF

  /** The actions taken one after another from output index 0; what stops the scan stops it all. */
  function ScanSpec(
      raw: seq<RawAction>, keys: Keys, txid: Hash, height: nat,
      attributions: map<Hash, AccountId>, lenient: bool): Result<Scanned, ScanError>
  {
    if raw == [] then Ok(Scanned([], [], [], [])) else
      var n := |raw| - 1;
      var before := ScanSpec(raw[..n], keys, txid, height, attributions, lenient);
      if before.Err? then before else
        match TakeSpec(raw[n], keys, txid, height, n, attributions, lenient)
        case Refused(amount) => Err(UnaddressedDeposit(amount))
        case Took(_, _, _, _) =>
          if n == U32_MAX then Err(Undecodable)
          else Ok(Added(before.value, TakeSpec(raw[n], keys, txid, height, n, attributions, lenient)))
  }

  /** `scan_inner`, from the decrypted actions of both bundles. */
  method Scan(
      raw: seq<RawAction>, keys: Keys, txid: Hash, height: nat,
      attributions: map<Hash, AccountId>, lenient: bool)
    returns (r: Result<Scanned, ScanError>)
    ensures r == ScanSpec(raw, keys, txid, height, attributions, lenient)
  {
    var out := Scanned([], [], [], []);
    var outputIndex := 0;
    while outputIndex < |raw|
      invariant 0 <= outputIndex <= |raw|
      invariant ScanSpec(raw[..outputIndex], keys, txid, height, attributions, lenient) == Ok(out)
    {
      var taken := Take(out, raw[outputIndex], keys, txid, height, outputIndex, attributions, lenient);
      ScanNext(raw, outputIndex, out, keys, txid, height, attributions, lenient);
      ErrorsStop(raw, outputIndex + 1, keys, txid, height, attributions, lenient);
      if taken.Err? {
        return taken;
      }
      if outputIndex == U32_MAX {
        return Err(Undecodable);
      }
      out := taken.value;
      outputIndex := outputIndex + 1;
    }
    assert raw[..outputIndex] == raw;
    r := Ok(out);
  }

  lemma ScanNext(
      raw: seq<RawAction>, k: nat, out: Scanned, keys: Keys, txid: Hash, height: nat,
      attributions: map<Hash, AccountId>, lenient: bool)
    requires k < |raw| && ScanSpec(raw[..k], keys, txid, height, attributions, lenient) == Ok(out)
    ensures var taken := TakeSpec(raw[k], keys, txid, height, k, attributions, lenient);
            ScanSpec(raw[..k + 1], keys, txid, height, attributions, lenient)
              == if taken.Refused? then Err(UnaddressedDeposit(taken.amount))
                 else if k == U32_MAX then Err(Undecodable) else Ok(Added(out, taken))
  {
    assert raw[..k + 1][..k] == raw[..k];
  }

  lemma {:induction false} ErrorsStop(
      raw: seq<RawAction>, k: nat, keys: Keys, txid: Hash, height: nat,
      attributions: map<Hash, AccountId>, lenient: bool)
    requires k <= |raw|
    ensures var front := ScanSpec(raw[..k], keys, txid, height, attributions, lenient);
            front.Err? ==> ScanSpec(raw, keys, txid, height, attributions, lenient) == front
    decreases |raw| - k
  {
    if k < |raw| {
      assert raw[..k + 1][..k] == raw[..k];
      ErrorsStop(raw, k + 1, keys, txid, height, attributions, lenient);
    } else {
      assert raw[..k] == raw;
    }
  }

  // ------------------------------------------------------------ classification

  /** What classification knows of the transaction besides its actions. */
  datatype Context = Context(
    spendsOurs: bool, attributed: Option<AccountId>, txid: Hash, height: nat, handedOut: map<nat, AccountId>)

  /** What one action comes to. */
  datatype Verdict = Nothing | Deposit(d: ObservedDeposit) | Unattributable(amount: i128)

  function ToAccount(account: AccountId, amount: i128, c: Context): Verdict {
    if account == NOBODY then Nothing else Deposit(ObservedDeposit(c.txid, account, amount, c.height, None))
  }

  /** The action's note arrived at an address that has been handed out. */
  predicate AtIssuedAddress(a: ScannedAction, c: Context) {
    a.toIndex.Some? && a.toIndex.value != VAULT_INDEX && a.toIndex.value in c.handedOut
  }

  function Judge(a: ScannedAction, c: Context): Verdict {
    if a.ours.None? || a.anchor || a.appPayment.Some? then Nothing
    else
      var amount := AmountOf(a.ours.value);
      if a.appReserved then Unattributable(amount)
      else if AtIssuedAddress(a, c) then ToAccount(c.handedOut[a.toIndex.value], amount, c)
      else if a.account.Some? then ToAccount(a.account.value, amount, c)
      else if c.spendsOurs then Nothing
      else if c.attributed.Some? then ToAccount(c.attributed.value, amount, c)
      else Unattributable(amount)
  }

  /** `classify_addressed`: the deposits in action order, or the first amount
      nobody can be found for. */
  function ClassifySpec(actions: seq<ScannedAction>, c: Context): Result<seq<ObservedDeposit>, i128> {
    if actions == [] then Ok([]) else
      var n := |actions| - 1;
      match ClassifySpec(actions[..n], c)
      case Err(e) => Err(e)
      case Ok(ds) =>
        match Judge(actions[n], c)
        case Nothing => Ok(ds)
        case Deposit(d) => Ok(ds + [d])
        case Unattributable(amount) => Err(amount)
  }

  method ClassifyAddressed(actions: seq<ScannedAction>, c: Context) returns (r: Result<seq<ObservedDeposit>, i128>)
    ensures r == ClassifySpec(actions, c)
  {
    var out: seq<ObservedDeposit> := [];
    var i := 0;
    while i < |actions|
      invariant 0 <= i <= |actions|
      invariant ClassifySpec(actions[..i], c) == Ok(out)
    {
      var a := actions[i];
      assert actions[..i + 1][..i] == actions[..i];
      RefusalStops(actions, i + 1, c);
      i := i + 1;
      if a.ours.None? || a.anchor || a.appPayment.Some? {
        continue;
      }
      var amount := AmountOf(a.ours.value);
      if a.appReserved {
        return Err(amount);
      }
      if a.toIndex.Some? && a.toIndex.value != VAULT_INDEX && a.toIndex.value in c.handedOut {
        var account := c.handedOut[a.toIndex.value];
        if account != NOBODY {
          out := out + [ObservedDeposit(c.txid, account, amount, c.height, None)];
        }
        continue;
      }
      match (a.account, c.spendsOurs, c.attributed) {
        case (Some(account), _, _) =>
          if account != NOBODY {
            out := out + [ObservedDeposit(c.txid, account, amount, c.height, None)];
          }
        case (None, true, _) =>  // change
        case (None, false, Some(account)) =>
          if account != NOBODY {
            out := out + [ObservedDeposit(c.txid, account, amount, c.height, None)];
          }
        case (None, false, None) => return Err(amount);
      }
    }
    assert actions[..i] == actions;
    r := Ok(out);
  }

  lemma {:induction false} RefusalStops(actions: seq<ScannedAction>, k: nat, c: Context)
    requires k <= |actions|
    ensures ClassifySpec(actions[..k], c).Err? ==> ClassifySpec(actions, c) == ClassifySpec(actions[..k], c)
    decreases |actions| - k
  {
    if k < |actions| {
      assert actions[..k + 1][..k] == actions[..k];
      RefusalStops(actions, k + 1, c);
    } else {
      assert actions[..k] == actions;
    }
  }

  // ------------------------------------------------------------ value is conserved

  /** A note the vault paid itself as a stamp. */
  predicate Stamp(a: ScannedAction) { a.ours.Some? && a.anchor }

  predicate Application(a: ScannedAction) { a.ours.Some? && !a.anchor && a.appPayment.Some? }

  predicate Money(a: ScannedAction) { a.ours.Some? && !a.anchor && a.appPayment.None? && !a.appReserved }

  /** No memo, no issued address, in a transaction that spends our own note. */
  predicate Change(a: ScannedAction, c: Context) {
    Money(a) && !AtIssuedAddress(a, c) && a.account.None? && c.spendsOurs
  }

  /** Whoever it is for, by address, memo or attribution in that order, is nobody. */
  predicate TopUp(a: ScannedAction, c: Context) {
    && Money(a)
    && (if AtIssuedAddress(a, c) then c.handedOut[a.toIndex.value] == NOBODY
        else if a.account.Some? then a.account.value == NOBODY
        else !c.spendsOurs && c.attributed == Some(NOBODY))
  }

  function WorthIf(a: ScannedAction, counted: bool): int {
    if a.ours.Some? && counted then AmountOf(a.ours.value) else 0
  }

  function Worths(actions: seq<ScannedAction>, counts: ScannedAction -> bool): int {
    if actions == [] then 0 else
      var a := actions[|actions| - 1];
      Worths(actions[..|actions| - 1], counts) + WorthIf(a, counts(a))
  }

  function DepositSum(ds: seq<ObservedDeposit>): int {
    if ds == [] then 0 else DepositSum(ds[..|ds| - 1]) + ds[|ds| - 1].amount
  }

  lemma NoteIsAccountedFor(a: ScannedAction, c: Context)
    requires !Judge(a, c).Unattributable?
    ensures (if Judge(a, c).Deposit? then Judge(a, c).d.amount else 0)
         == WorthIf(a, true) - WorthIf(a, Stamp(a)) - WorthIf(a, Application(a))
          - WorthIf(a, Change(a, c)) - WorthIf(a, TopUp(a, c))
  {
  }

  /** What is credited is what arrived less stamps, application payments, change
      and top-ups. */
  lemma {:induction false} ClassificationConservesValue(actions: seq<ScannedAction>, c: Context)
    requires ClassifySpec(actions, c).Ok?
    ensures DepositSum(ClassifySpec(actions, c).value)
         == Worths(actions, a => true)
          - Worths(actions, a => Stamp(a))
          - Worths(actions, a => Application(a))
          - Worths(actions, a => Change(a, c))
          - Worths(actions, a => TopUp(a, c))
  {
    if actions != [] {
      var n := |actions| - 1;
      ClassificationConservesValue(actions[..n], c);
      NoteIsAccountedFor(actions[n], c);
      var ds := ClassifySpec(actions[..n], c).value;
      if Judge(actions[n], c).Deposit? {
        assert (ds + [Judge(actions[n], c).d])[..|ds|] == ds;
      }
    }
  }

  /** Nobody is ever credited, and a deposit carries its own transaction and height. */
  lemma {:induction false} DepositsNameSomebody(actions: seq<ScannedAction>, c: Context)
    requires ClassifySpec(actions, c).Ok?
    ensures forall d :: d in ClassifySpec(actions, c).value ==>
              d.account != NOBODY && d.txid == c.txid && d.height == c.height && d.asset.None?
  {
    if actions != [] {
      DepositsNameSomebody(actions[..|actions| - 1], c);
    }
  }

  /** An action that cannot be classified: a malformed application payment, or
      money with no address, memo or attribution that spends nothing of ours. */
  predicate Stray(a: ScannedAction, c: Context) {
    && a.ours.Some? && !a.anchor && a.appPayment.None?
    && (a.appReserved || (!AtIssuedAddress(a, c) && a.account.None? && !c.spendsOurs && c.attributed.None?))
  }

  /** Classification fails exactly when there is such an action, with the first one's amount. */
  lemma {:induction false} ClassificationFailsOnStrays(actions: seq<ScannedAction>, c: Context)
    ensures ClassifySpec(actions, c).Err? <==> exists i :: 0 <= i < |actions| && Stray(actions[i], c)
    ensures ClassifySpec(actions, c).Err? ==>
              exists i :: 0 <= i < |actions| && Stray(actions[i], c)
                && ClassifySpec(actions, c).error == AmountOf(actions[i].ours.value)
                && forall j :: 0 <= j < i ==> !Stray(actions[j], c)
  {
    if actions != [] {
      var n := |actions| - 1;
      ClassificationFailsOnStrays(actions[..n], c);
      assert Judge(actions[n], c).Unattributable? <==> Stray(actions[n], c);
      if ClassifySpec(actions[..n], c).Err? {
        var i :| 0 <= i < n && Stray(actions[..n][i], c)
              && ClassifySpec(actions[..n], c).error == AmountOf(actions[..n][i].ours.value)
              && forall j :: 0 <= j < i ==> !Stray(actions[..n][j], c);
        assert actions[i] == actions[..n][i];
        forall j | 0 <= j < i ensures !Stray(actions[j], c) {
          assert actions[..n][j] == actions[j];
        }
      } else {
        forall j | 0 <= j < n ensures !Stray(actions[j], c) {
          assert actions[..n][j] == actions[j];
        }
      }
    }
  }

  function One(b: bool): nat { if b then 1 else 0 }

  /** A note of ours is exactly one thing. */
  lemma OneClassEach(a: ScannedAction, c: Context)
    requires a.ours.Some?
    ensures One(Stamp(a)) + One(Application(a)) + One(Change(a, c)) + One(TopUp(a, c))
          + One(Judge(a, c).Deposit?) + One(Stray(a, c)) == 1
  {
    if AtIssuedAddress(a, c) {
      assert Judge(a, c).Deposit? <==> Money(a) && c.handedOut[a.toIndex.value] != NOBODY;
    }
  }

  // ------------------------------------------------------------ the application namespace

  /** A note whose memo carries the application tag never becomes a deposit:
      not by `take`, strict or lenient, whatever is attributed, and not by
      classification, whatever address it arrived at. */
  lemma ApplicationTagNeverDeposits(
      a: RawAction, keys: Keys, txid: Hash, height: nat, outputIndex: nat,
      attributions: map<Hash, AccountId>, lenient: bool, c: Context)
    requires a.decrypted.Some? && HasAppPaymentTag(a.decrypted.value.1)
    ensures var t := TakeSpec(a, keys, txid, height, outputIndex, attributions, lenient);
            t.Took? ==> t.deposit.None? && !Judge(t.action, c).Deposit?
  {
    OneReading(a.decrypted.value.1);
  }

  /** A malformed one makes a strict scan fail, and after a lenient scan makes
      every classification of the transaction fail. */
  lemma MalformedApplicationPaymentFails(
      raw: seq<RawAction>, i: nat, keys: Keys, txid: Hash, height: nat,
      attributions: map<Hash, AccountId>, c: Context)
    requires i < |raw| && raw[i].decrypted.Some?
    requires var memo := raw[i].decrypted.value.1; HasAppPaymentTag(memo) && DecodeAppPayment(memo).Err?
    ensures ScanSpec(raw, keys, txid, height, attributions, false).Err?
    ensures ScanSpec(raw, keys, txid, height, attributions, true).Ok? ==>
              ClassifySpec(ScanSpec(raw, keys, txid, height, attributions, true).value.actions, c).Err?
  {
    OneReading(raw[i].decrypted.value.1);
    assert raw[..i + 1][..i] == raw[..i];
    assert TakeSpec(raw[i], keys, txid, height, i, attributions, false).Refused?;
    ErrorsStop(raw, i + 1, keys, txid, height, attributions, false);
    var s := ScanSpec(raw, keys, txid, height, attributions, true);
    if s.Ok? {
      ActionsInOrder(raw, i, keys, txid, height, attributions, true);
      assert Stray(s.value.actions[i], c);
      ClassificationFailsOnStrays(s.value.actions, c);
    }
  }

  /** The i-th action scanned is the one taken from the i-th action of the transaction. */
  lemma {:induction false} ActionsInOrder(
      raw: seq<RawAction>, i: nat, keys: Keys, txid: Hash, height: nat,
      attributions: map<Hash, AccountId>, lenient: bool)
    requires i < |raw| && ScanSpec(raw, keys, txid, height, attributions, lenient).Ok?
    ensures var s := ScanSpec(raw, keys, txid, height, attributions, lenient).value;
            var t := TakeSpec(raw[i], keys, txid, height, i, attributions, lenient);
            |s.actions| == |raw| && t.Took? && s.actions[i] == t.action
  {
    var n := |raw| - 1;
    ScannedCount(raw[..n], keys, txid, height, attributions, lenient);
    if i < n {
      ActionsInOrder(raw[..n], i, keys, txid, height, attributions, lenient);
    }
  }

  lemma {:induction false} ScannedCount(
      raw: seq<RawAction>, keys: Keys, txid: Hash, height: nat, attributions: map<Hash, AccountId>, lenient: bool)
    requires ScanSpec(raw, keys, txid, height, attributions, lenient).Ok?
    ensures |ScanSpec(raw, keys, txid, height, attributions, lenient).value.actions| == |raw|
  {
    if raw != [] {
      ScannedCount(raw[..|raw| - 1], keys, txid, height, attributions, lenient);
    }
  }
}
