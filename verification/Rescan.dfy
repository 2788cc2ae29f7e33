/** A block read while it is fed to the trees and read again later for its deposits
    (src/shielded.rs, `feed_block` and the scan of `observe`) tells the same. */
module Rescan {
  import opened Prelude
  import opened Notes
  import opened Memo
  import W = Watcher
  import opened Shielded
  import opened Scanner
  import opened Retry
  import opened Transparency
  import opened FeedRuns
  import opened Observe

  // ------------------------------------------------------------ nothing is ours but what was created

  /** The notes of ours created by transactions `k` up to `n` of a block. */
  function CreatedFrom(txs: seq<TxReply>, k: nat, n: nat, p: ValuePool, height: nat, keys: Keys): set<Hash>
    requires n <= |txs|
  {
    if n <= k then {} else
      CreatedFrom(txs, k, n - 1, p, height, keys) + Created(ActionsOf(txs[n - 1], keys, height), p, keys.nullifier)
  }

  function CreatedByOp(op: Op, p: ValuePool, keys: Keys): set<Hash> {
    if op.Feed? then CreatedBy(TxsOf(op.reply), p, op.height, keys) else {}
  }

  function CreatedByRun(ops: seq<Op>, p: ValuePool, keys: Keys): set<Hash> {
    if ops == [] then {} else
      CreatedByRun(ops[..|ops| - 1], p, keys) + CreatedByOp(ops[|ops| - 1], p, keys)
  }

  lemma NullifierAddsNothing(s: Store, nf: Hash, key: NullifierOf)
    ensures OursIn(NullifierSpec(s, nf, key).0, key) <= OursIn(s, key)
  {
  }

  lemma {:induction false} SpendsAddNothing(s: Store, actions: seq<ScannedAction>, p: ValuePool, key: NullifierOf)
    ensures OursIn(SpendPool(s, actions, p, key), key) <= OursIn(s, key)
  {
    if actions != [] {
      var n := |actions| - 1;
      SpendsAddNothing(s, actions[..n], p, key);
      NullifierAddsNothing(SpendPool(s, actions[..n], p, key), actions[n].nullifier, key);
    }
  }

  lemma AppendAddsCreated(s: Store, a: ScannedAction, height: nat, txid: Hash, key: NullifierOf)
    ensures OursIn(AppendOne(s, a, height, txid), key)
         <= OursIn(s, key) + if a.ours.Some? then {key(a.ours.value)} else {}
  {
    SameAppend(s, s, a, height, txid);
  }

  lemma {:induction false} AppendsAddCreated(
      s: Store, actions: seq<ScannedAction>, p: ValuePool, height: nat, txid: Hash, key: NullifierOf)
    ensures OursIn(AppendPool(s, actions, p, height, txid), key) <= OursIn(s, key) + Created(actions, p, key)
  {
    if actions != [] {
      var n := |actions| - 1;
      AppendsAddCreated(s, actions[..n], p, height, txid, key);
      AppendAddsCreated(AppendPool(s, actions[..n], p, height, txid), actions[n], height, txid, key);
    }
  }

  lemma TxAddsCreated(s: Store, t: TxReply, p: ValuePool, height: nat, keys: Keys)
    ensures OursIn(PoolTx(s, t, p, height, keys), keys.nullifier)
         <= OursIn(s, keys.nullifier) + Created(ActionsOf(t, keys, height), p, keys.nullifier)
  {
    var actions := ActionsOf(t, keys, height);
    SpendsAddNothing(s, actions, p, keys.nullifier);
    AppendsAddCreated(SpendPool(s, actions, p, keys.nullifier), actions, p, height, TxidOf(t), keys.nullifier);
  }

  /** What is ours part-way through a block, step by step. */
  function OursAt(s: Store, txs: seq<TxReply>, k: nat, p: ValuePool, height: nat, keys: Keys): set<Hash>
    requires k <= |txs|
  {
    var now := At(s, txs, k, p, height, keys);
    now.spent + Known(now, keys.nullifier)
  }

  lemma NextAddsCreated(s: Store, txs: seq<TxReply>, k: nat, n: nat, p: ValuePool, height: nat, keys: Keys)
    requires k < |txs| && n == k + 1
    ensures OursAt(s, txs, n, p, height, keys)
         <= OursAt(s, txs, k, p, height, keys) + Created(ActionsOf(txs[k], keys, height), p, keys.nullifier)
  {
    AtNext(s, txs, k, p, height, keys);
    TxAddsCreated(At(s, txs, k, p, height, keys), txs[k], p, height, keys);
  }

  lemma CreatedNext(txs: seq<TxReply>, k: nat, m: nat, n: nat, p: ValuePool, height: nat, keys: Keys)
    requires k <= m < |txs| && n == m + 1
    ensures CreatedFrom(txs, k, n, p, height, keys)
         == CreatedFrom(txs, k, m, p, height, keys) + Created(ActionsOf(txs[m], keys, height), p, keys.nullifier)
  {
  }

  lemma {:induction false} BlockAddsCreated(
      s: Store, txs: seq<TxReply>, k: nat, n: nat, p: ValuePool, height: nat, keys: Keys)
    requires k <= n <= |txs|
    ensures OursAt(s, txs, n, p, height, keys)
         <= OursAt(s, txs, k, p, height, keys) + CreatedFrom(txs, k, n, p, height, keys)
    decreases n
  {
    if k < n {
      var m := n - 1;
      BlockAddsCreated(s, txs, k, m, p, height, keys);
      NextAddsCreated(s, txs, m, n, p, height, keys);
      CreatedNext(txs, k, m, n, p, height, keys);
    }
  }

  lemma {:induction false} BodyAddsCreated(
      begun: Pools, txs: seq<TxReply>, p: ValuePool, height: nat, keys: Keys, attributions: map<Hash, W.AccountId>)
    ensures OursIn(Pick(BodySpec(begun, txs, height, keys, attributions).0, p), keys.nullifier)
         <= OursIn(Pick(begun, p), keys.nullifier) + CreatedBy(txs, p, height, keys)
  {
    if txs != [] {
      var n := |txs| - 1;
      BodyAddsCreated(begun, txs[..n], p, height, keys, attributions);
      BodyLast(begun, txs, p, height, keys, attributions);
      var before := BodySpec(begun, txs[..n], height, keys, attributions).0;
      TxAddsCreated(Pick(before, p), txs[n], p, height, keys);
      SpendsAddNothing(Pick(before, p), ActionsOf(txs[n], keys, height), p, keys.nullifier);
    }
  }

  lemma RewindAddsNothing(s: Store, key: NullifierOf)
    ensures OursIn(RewindSpec(s).0, key) <= OursIn(s, key)
  {
  }

  lemma SendingAddsNothing(s: Store, position: nat, key: NullifierOf)
    ensures OursIn(SpendSpec(s, position).0, key) <= OursIn(s, key)
  {
  }

  /** An operation makes nothing ours but the notes the answer it is given creates. */
  lemma OpAddsCreated(ps: Pools, op: Op, p: ValuePool, keys: Keys)
    ensures OursIn(Pick(Step(ps, op, keys), p), keys.nullifier)
         <= OursIn(Pick(ps, p), keys.nullifier) + CreatedByOp(op, p, keys)
  {
    var s := Pick(ps, p);
    if op.Send? {
      SentPicked(ps, op, p, keys);
      SendingAddsNothing(s, op.position, keys.nullifier);
    } else if !Done(ps, op.height) {
      FeedPicked(ps, op.reply, op.height, keys, op.attributions, p);
      if op.reply.NoTxids? {
        RewindAddsNothing(BeginSpec(s, op.height), keys.nullifier);
      } else {
        var begun := BeginBoth(ps, op.height);
        BodyAddsCreated(begun, op.reply.txs, p, op.height, keys, op.attributions);
        RewindAddsNothing(
          Pick(BodySpec(begun, op.reply.txs, op.height, keys, op.attributions).0, p), keys.nullifier);
      }
    }
  }

  lemma {:induction false} RunAddsCreated(ps: Pools, ops: seq<Op>, p: ValuePool, keys: Keys)
    ensures OursIn(Pick(Run(ps, ops, keys), p), keys.nullifier)
         <= OursIn(Pick(ps, p), keys.nullifier) + CreatedByRun(ops, p, keys)
  {
    if ops != [] {
      RunAddsCreated(ps, ops[..|ops| - 1], p, keys);
      OpAddsCreated(Run(ps, ops[..|ops| - 1], keys), ops[|ops| - 1], p, keys);
    }
  }

  // ------------------------------------------------------------ the same notes are recognised

  /** What the chain guarantees: no note's nullifier is revealed in a transaction
      and the note created there or afterwards. */
  ghost predicate CreatedBefore(op: Op, ops: seq<Op>, p: ValuePool, keys: Keys)
    requires op.Feed?
  {
    var txs := TxsOf(op.reply);
    forall k, x :: 0 <= k < |txs| && x in RevealedBy(txs[k], p, op.height, keys) ==>
      x !in CreatedFrom(txs, k, |txs|, p, op.height, keys) && x !in CreatedByRun(ops, p, keys)
  }

  /** A nullifier the block reveals is recognised as ours after any run exactly
      when it was recognised while the block was fed. */
  lemma RecognisedAlike(
      ps: Pools, op: Op, ops: seq<Op>, k: nat, p: ValuePool, x: Hash, keys: Keys, commit: CommitmentOf)
    requires Together(ps, commit) && HonestOp(op, commit) && forall o :: o in ops ==> HonestOp(o, commit)
    requires op.Feed? && Landed(ps, op, keys) != [] && k < |TxsOf(op.reply)|
    requires x in RevealedBy(TxsOf(op.reply)[k], p, op.height, keys) && CreatedBefore(op, ops, p, keys)
    ensures Recognises(Pick(Run(Step(ps, op, keys), ops, keys), p), x, keys.nullifier)
       <==> Recognises(At(Pick(ps, p), TxsOf(op.reply), k, p, op.height, keys), x, keys.nullifier)
  {
    var txs, s := TxsOf(op.reply), Pick(ps, p);
    var end := Pick(Run(Step(ps, op, keys), ops, keys), p);
    RecognisesIs(end, x, keys.nullifier);
    RecognisesIs(At(s, txs, k, p, op.height, keys), x, keys.nullifier);
    if Recognises(At(s, txs, k, p, op.height, keys), x, keys.nullifier) {
      OwnSpendsStayOurs(ps, op, ops, k, p, x, keys, commit);
    } else {
      RunAddsCreated(Step(ps, op, keys), ops, p, keys);
      LandedIs(ps, op, p, keys);
      BlockAddsCreated(s, txs, k, |txs|, p, op.height, keys);
    }
  }

  lemma SpendsKnownAlike(
      ps: Pools, op: Op, ops: seq<Op>, k: nat, p: ValuePool, keys: Keys, commit: CommitmentOf)
    requires Together(ps, commit) && HonestOp(op, commit) && forall o :: o in ops ==> HonestOp(o, commit)
    requires op.Feed? && Landed(ps, op, keys) != [] && k < |TxsOf(op.reply)| && CreatedBefore(op, ops, p, keys)
    ensures var actions := ActionsOf(TxsOf(op.reply)[k], keys, op.height);
            SpendsKnown(Pick(Run(Step(ps, op, keys), ops, keys), p), actions, p, keys.nullifier)
              == SpendsKnown(At(Pick(ps, p), TxsOf(op.reply), k, p, op.height, keys), actions, p, keys.nullifier)
  {
    var actions := ActionsOf(TxsOf(op.reply)[k], keys, op.height);
    var end := Pick(Run(Step(ps, op, keys), ops, keys), p);
    var now := At(Pick(ps, p), TxsOf(op.reply), k, p, op.height, keys);
    forall i | 0 <= i < |actions| && actions[i].pool == p
      ensures Recognises(end, actions[i].nullifier, keys.nullifier)
           == Recognises(now, actions[i].nullifier, keys.nullifier)
    {
      RevealedMember(actions, i, p);
      RecognisedAlike(ps, op, ops, k, p, actions[i].nullifier, keys, commit);
    }
  }

  // ------------------------------------------------------------ the same answer

  /** Whoever the action is for as feeding sees it, without the register of
      addresses; change and the operator's own are for nobody. */
  function Named(a: ScannedAction, c: Context): Option<W.AccountId> {
    if a.account.Some? then a.account else if c.spendsOurs then Some(W.NOBODY) else c.attributed
  }

  /** The register has nothing to say of the action, or says what is said without it. */
  predicate RegisterAgrees(a: ScannedAction, c: Context, handedOut: map<nat, W.AccountId>) {
    Money(a) && AtIssuedAddress(a, c.(handedOut := handedOut)) ==> Named(a, c) == Some(handedOut[a.toIndex.value])
  }

  /** An action is judged alike with and without the register exactly then. */
  lemma JudgedAlikeExactlyWhen(a: ScannedAction, c: Context, handedOut: map<nat, W.AccountId>)
    requires c.handedOut == map[]
    ensures Judge(a, c.(handedOut := handedOut)) == Judge(a, c) <==> RegisterAgrees(a, c, handedOut)
  {
    var issued := c.(handedOut := handedOut);
    assert Judge(a, c) == if a.ours.None? || a.anchor || a.appPayment.Some? then Nothing
                          else if a.appReserved then Unattributable(AmountOf(a.ours.value))
                          else if Named(a, c).Some? then ToAccount(Named(a, c).value, AmountOf(a.ours.value), c)
                          else Unattributable(AmountOf(a.ours.value));
    if Money(a) && AtIssuedAddress(a, issued) {
      assert Judge(a, issued) == ToAccount(handedOut[a.toIndex.value], AmountOf(a.ours.value), c);
    }
  }

  ghost predicate AllAgree(actions: seq<ScannedAction>, c: Context, handedOut: map<nat, W.AccountId>) {
    forall i :: 0 <= i < |actions| ==> RegisterAgrees(actions[i], c, handedOut)
  }

  /** The register changes nothing then. */
  lemma {:induction false} RegisterSilent(actions: seq<ScannedAction>, c: Context, handedOut: map<nat, W.AccountId>)
    requires c.handedOut == map[] && AllAgree(actions, c, handedOut)
    ensures ClassifySpec(actions, c.(handedOut := handedOut)) == ClassifySpec(actions, c)
  {
    if actions != [] {
      var n := |actions| - 1;
      RegisterSilent(actions[..n], c, handedOut);
      JudgedAlikeExactlyWhen(actions[n], c, handedOut);
    }
  }

  /** The register agrees with all a transaction was taken for while it was fed. */
  ghost predicate TxAgrees(fed: Pools, t: TxReply, height: nat, c: Config, keys: Keys) {
    var actions := ActionsOf(t, keys, height);
    var spendsOurs := SpendsKnown(fed.orchard, actions, Orchard, keys.nullifier)
                   || SpendsKnown(fed.ironwood, actions, Ironwood, keys.nullifier);
    AllAgree(actions, ContextOf(spendsOurs, c.attributions, TxidOf(t), height), c.handedOut)
  }

  /** The register agrees with a whole block, transaction by transaction. */
  ghost predicate BlockAgrees(ps: Pools, txs: seq<TxReply>, n: nat, height: nat, c: Config, keys: Keys)
    requires n <= |txs|
  {
    forall k :: 0 <= k < n ==> TxAgrees(AtBoth(ps, txs, k, height, keys), txs[k], height, c, keys)
  }

  /** None of these arrived at an address that has been handed out. */
  ghost predicate NoneIssued(actions: seq<ScannedAction>, handedOut: map<nat, W.AccountId>) {
    forall i :: 0 <= i < |actions| && actions[i].toIndex.Some? ==>
      actions[i].toIndex.value == VAULT_INDEX || actions[i].toIndex.value !in handedOut
  }

  /** It agrees with every block none of whose notes came to an issued address. */
  lemma NoneIssuedAgrees(ps: Pools, txs: seq<TxReply>, height: nat, c: Config, keys: Keys)
    requires forall t :: t in txs ==> NoneIssued(ActionsOf(t, keys, height), c.handedOut)
    ensures BlockAgrees(ps, txs, |txs|, height, c, keys)
  {
  }

  /** The same stores tell the same of a transaction, fed or scanned. */
  lemma SeenLikeFed(fed: Pools, later: Pools, t: TxReply, height: nat, c: Config, keys: Keys)
    requires TxAgrees(fed, t, height, c, keys)
    requires var actions := ActionsOf(t, keys, height);
             && SpendsKnown(later.orchard, actions, Orchard, keys.nullifier)
                == SpendsKnown(fed.orchard, actions, Orchard, keys.nullifier)
             && SpendsKnown(later.ironwood, actions, Ironwood, keys.nullifier)
                == SpendsKnown(fed.ironwood, actions, Ironwood, keys.nullifier)
    ensures SeenTx(later, true, t, height, c, keys) == TxOutcome(fed, t, height, keys, c.attributions)
  {
    if Read(t, keys, height).Some? {
      var actions := ActionsOf(t, keys, height);
      var spendsOurs := SpendsKnown(fed.orchard, actions, Orchard, keys.nullifier)
                     || SpendsKnown(fed.ironwood, actions, Ironwood, keys.nullifier);
      RegisterSilent(actions, ContextOf(spendsOurs, c.attributions, t.txid, height), c.handedOut);
    }
  }

  lemma TxAlike(ps: Pools, op: Op, ops: seq<Op>, k: nat, c: Config, keys: Keys, commit: CommitmentOf)
    requires Together(ps, commit) && HonestOp(op, commit) && forall o :: o in ops ==> HonestOp(o, commit)
    requires op.Feed? && Landed(ps, op, keys) != [] && k < |TxsOf(op.reply)| && c.attributions == op.attributions
    requires CreatedBefore(op, ops, Orchard, keys) && CreatedBefore(op, ops, Ironwood, keys)
    requires TxAgrees(AtBoth(ps, TxsOf(op.reply), k, op.height, keys), TxsOf(op.reply)[k], op.height, c, keys)
    ensures SeenTx(Run(Step(ps, op, keys), ops, keys), true, TxsOf(op.reply)[k], op.height, c, keys)
         == TxOutcome(AtBoth(ps, TxsOf(op.reply), k, op.height, keys), TxsOf(op.reply)[k], op.height, keys,
                      c.attributions)
  {
    SpendsKnownAlike(ps, op, ops, k, Orchard, keys, commit);
    SpendsKnownAlike(ps, op, ops, k, Ironwood, keys, commit);
    SeenLikeFed(AtBoth(ps, TxsOf(op.reply), k, op.height, keys), Run(Step(ps, op, keys), ops, keys),
                TxsOf(op.reply)[k], op.height, c, keys);
  }

  lemma SeenTxsNext(later: Pools, txs: seq<TxReply>, k: nat, height: nat, c: Config, keys: Keys)
    requires k < |txs|
    ensures var r := SeenTxs(later, true, txs[..k], height, c, keys);
            SeenTxs(later, true, txs[..k + 1], height, c, keys)
              == if r.Err? then r else
                   match SeenTx(later, true, txs[k], height, c, keys)
                   case Err(e) => Err(e)
                   case Ok((ds, forced)) => Ok((r.value.0 + ds, r.value.1 + forced))
  {
    assert txs[..k + 1][..k] == txs[..k];
  }

  /** As far as the body goes without failing, the scan tells what it tells. */
  lemma {:induction false} SeenSoFar(
      ps: Pools, op: Op, ops: seq<Op>, k: nat, c: Config, keys: Keys, commit: CommitmentOf)
    requires Together(ps, commit) && HonestOp(op, commit) && forall o :: o in ops ==> HonestOp(o, commit)
    requires op.Feed? && Landed(ps, op, keys) != [] && k <= |TxsOf(op.reply)| && c.attributions == op.attributions
    requires CreatedBefore(op, ops, Orchard, keys) && CreatedBefore(op, ops, Ironwood, keys)
    requires BlockAgrees(ps, TxsOf(op.reply), k, op.height, c, keys)
    requires BodySpec(BeginBoth(ps, op.height), TxsOf(op.reply)[..k], op.height, keys, op.attributions).1.Ok?
    ensures SeenTxs(Run(Step(ps, op, keys), ops, keys), true, TxsOf(op.reply)[..k], op.height, c, keys)
         == BodySpec(BeginBoth(ps, op.height), TxsOf(op.reply)[..k], op.height, keys, op.attributions).1
  {
    var txs := TxsOf(op.reply);
    if k == 0 {
      assert txs[..0] == [];
    } else {
      var m := k - 1;
      BodyNext(BeginBoth(ps, op.height), txs, m, op.height, keys, op.attributions);
      SeenSoFar(ps, op, ops, m, c, keys, commit);
      TxAlike(ps, op, ops, m, c, keys, commit);
      SeenOneMore(ps, Run(Step(ps, op, keys), ops, keys), txs, m, k, op.height, c, keys);
    }
  }

  /** One more transaction tells the same, fed or scanned. */
  lemma SeenOneMore(ps: Pools, later: Pools, txs: seq<TxReply>, m: nat, k: nat, height: nat, c: Config, keys: Keys)
    requires m < |txs| && k == m + 1
    requires BodySpec(BeginBoth(ps, height), txs[..k], height, keys, c.attributions).1.Ok?
    requires SeenTxs(later, true, txs[..m], height, c, keys)
          == BodySpec(BeginBoth(ps, height), txs[..m], height, keys, c.attributions).1
    requires SeenTx(later, true, txs[m], height, c, keys)
          == TxOutcome(AtBoth(ps, txs, m, height, keys), txs[m], height, keys, c.attributions)
    ensures SeenTxs(later, true, txs[..k], height, c, keys)
         == BodySpec(BeginBoth(ps, height), txs[..k], height, keys, c.attributions).1
  {
    SeenTxsNext(later, txs, m, height, c, keys);
    BodyTells(BeginBoth(ps, height), txs, m, height, keys, c.attributions);
    BodyShape(ps, txs, m, height, keys, c.attributions);
  }

  lemma BodyTells(
      begun: Pools, txs: seq<TxReply>, k: nat, height: nat, keys: Keys, attributions: map<Hash, W.AccountId>)
    requires k < |txs| && BodySpec(begun, txs[..k + 1], height, keys, attributions).1.Ok?
    ensures var (before, r) := BodySpec(begun, txs[..k], height, keys, attributions);
            && r.Ok? && TxOutcome(before, txs[k], height, keys, attributions).Ok?
            && var found := TxOutcome(before, txs[k], height, keys, attributions).value;
               BodySpec(begun, txs[..k + 1], height, keys, attributions).1
                 == Ok((r.value.0 + found.0, r.value.1 + found.1))
  {
    assert txs[..k + 1][..k] == txs[..k];
  }

  /** A block finished by feeding it, scanned again after any run, tells the same
      deposits and the same forced frames, as long as the register of addresses,
      which feeding does not look at, agrees with what each note was taken for. */
  lemma ScannedAsFed(ps: Pools, op: Op, ops: seq<Op>, c: Config, keys: Keys, commit: CommitmentOf)
    requires Together(ps, commit) && HonestOp(op, commit) && forall o :: o in ops ==> HonestOp(o, commit)
    requires op.Feed? && Landed(ps, op, keys) != [] && c.attributions == op.attributions
    requires CreatedBefore(op, ops, Orchard, keys) && CreatedBefore(op, ops, Ironwood, keys)
    requires BlockAgrees(ps, TxsOf(op.reply), |TxsOf(op.reply)|, op.height, c, keys)
    ensures SeenBlock(Run(Step(ps, op, keys), ops, keys), true, op.reply, op.height, c, keys)
         == FeedSpec(ps, op.reply, op.height, keys, op.attributions).1
  {
    var txs := TxsOf(op.reply);
    assert txs[..|txs|] == txs;
    SeenSoFar(ps, op, ops, |txs|, c, keys, commit);
  }

  // ------------------------------------------------------------ where the register speaks alone

  /** The memo of a note sent without one (ZIP 302). */
  function NoMemo(): (m: Readable)
    ensures |m| == MEMO_FIELD && m[0] == 0xF6
  {
    var m: seq<byte> := [0xF6] + Zeros(511);
    Untagged(m);
    m
  }

  lemma Untagged(m: seq<byte>)
    requires |m| >= 1 && m[0] == 0xF6
    ensures !Tagged(m, MEMO_TAG) && !Tagged(m, ANCHOR_TAG) && !Tagged(m, PUBLISH_TAG)
    ensures !Tagged(m, FORCED_TAG) && !Tagged(m, APP_PAYMENT_TAG) && !Tagged(m, TEXT_PREFIX)
  {
    assert forall tag: seq<byte> {:trigger Tagged(m, tag)} :: |tag| > 0 && Tagged(m, tag) ==> m[..|tag|][0] == m[0];
  }

  /** One action with a note sent without a memo. */
  function BareNote(note: Note): RawAction { RawAction(Orchard, 0, 0, Some((note, NoMemo()))) }

  /** It names nobody. */
  lemma BareNoteTaken(note: Note, keys: Keys, height: nat)
    ensures ActionsOf(Raw(0, [BareNote(note)]), keys, height) == [Ours(BareNote(note), note, NoMemo(), keys)]
    ensures Read(Raw(0, [BareNote(note)]), keys, height).Some?
         && Read(Raw(0, [BareNote(note)]), keys, height).value.forced == []
  {
    var raw := [BareNote(note)];
    Untagged(NoMemo());
    assert raw[..|raw| - 1] == [];
    assert ScanSpec([], keys, 0, height, map[], true) == Ok(Scanned([], [], [], []));
    assert TakeSpec(raw[0], keys, 0, height, 0, map[], true)
        == Took(Ours(raw[0], note, NoMemo(), keys), None, None, None);
    assert ScanSpec(raw, keys, 0, height, map[], true)
        == Ok(Added(Scanned([], [], [], []), TakeSpec(raw[0], keys, 0, height, 0, map[], true)));
  }

  lemma OneJudged(a: ScannedAction, c: Context)
    ensures ClassifySpec([a], c)
         == match Judge(a, c)
            case Nothing => Ok([])
            case Deposit(d) => Ok([d])
            case Unattributable(amount) => Err(amount)
  {
    var actions := [a];
    assert actions[..|actions| - 1] == [];
    var none: seq<W.ObservedDeposit> := [];
    assert ClassifySpec([], c) == Ok(none);
    if Judge(a, c).Deposit? {
      assert none + [Judge(a, c).d] == [Judge(a, c).d];
    }
  }

  /** Paid to an address that was handed out to somebody. */
  predicate ToSomebody(note: Note, c: Config, keys: Keys) {
    && keys.indexOf(note).Some? && keys.indexOf(note).value != VAULT_INDEX
    && keys.indexOf(note).value in c.handedOut && c.handedOut[keys.indexOf(note).value] != W.NOBODY
  }

  /** Scanning it credits that account; feeding it to stores its transaction takes
      nothing from refuses it. */
  lemma RegisterSpeaksAlone(note: Note, ps: Pools, height: nat, c: Config, keys: Keys)
    requires ToSomebody(note, c, keys) && c.attributions == map[] && !Recognises(ps.orchard, 0, keys.nullifier)
    ensures var t := Raw(0, [BareNote(note)]);
            var deposit := W.ObservedDeposit(0, c.handedOut[keys.indexOf(note).value], AmountOf(note), height, None);
            && TxOutcome(ps, t, height, keys, c.attributions) == Err(UnattributableAt(height, AmountOf(note)))
            && SeenTx(ps, true, t, height, c, keys) == Ok(([deposit], []))
  {
    BareNoteTaken(note, keys, height);
    var a := Ours(BareNote(note), note, NoMemo(), keys);
    assert [a][0] == a;
    OneJudged(a, ContextOf(false, map[], 0, height));
    OneJudged(a, ContextOf(false, map[], 0, height).(handedOut := c.handedOut));
  }

  lemma OneTx(ps: Pools, t: TxReply, height: nat, c: Config, keys: Keys)
    requires SeenTx(ps, true, t, height, c, keys).Ok?
    ensures SeenTxs(ps, true, [t], height, c, keys) == SeenTx(ps, true, t, height, c, keys)
  {
    var txs := [t];
    assert txs[..|txs| - 1] == [];
    var (ds, forced) := SeenTx(ps, true, t, height, c, keys).value;
    assert [] + ds == ds && [] + forced == forced;
    assert SeenTxs(ps, true, [], height, c, keys) == Ok(([], []));
  }

  lemma OneTxFails(begun: Pools, t: TxReply, height: nat, c: Config, keys: Keys)
    requires TxOutcome(begun, t, height, keys, c.attributions).Err?
    ensures BodySpec(begun, [t], height, keys, c.attributions).1
         == Err(TxOutcome(begun, t, height, keys, c.attributions).error)
  {
    var txs := [t];
    assert txs[..|txs| - 1] == [];
    assert BodySpec(begun, [], height, keys, c.attributions) == (begun, Ok(([], [])));
  }

  /** So a block of that one transaction is never taken into the trees, at any
      height they have not reached, though its scan credits the note. */
  lemma AddressedBlockIsNeverFed(note: Note, ps: Pools, height: nat, c: Config, keys: Keys)
    requires ToSomebody(note, c, keys) && c.attributions == map[] && !Recognises(ps.orchard, 0, keys.nullifier)
    requires !Done(ps, height)
    ensures var reply := Txids([Raw(0, [BareNote(note)])]);
            var deposit := W.ObservedDeposit(0, c.handedOut[keys.indexOf(note).value], AmountOf(note), height, None);
            && FeedSpec(ps, reply, height, keys, c.attributions).1 == Err(UnattributableAt(height, AmountOf(note)))
            && SeenBlock(ps, true, reply, height, c, keys) == Ok(([deposit], []))
  {
    var t := Raw(0, [BareNote(note)]);
    RegisterSpeaksAlone(note, BeginBoth(ps, height), height, c, keys);
    RegisterSpeaksAlone(note, ps, height, c, keys);
    OneTx(ps, t, height, c, keys);
    OneTxFails(BeginBoth(ps, height), t, height, c, keys);
  }
}
