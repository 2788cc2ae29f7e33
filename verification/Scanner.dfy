/** Feeding a block to the two note stores (src/shielded.rs, `feed_block`). */
module Scanner {
  import opened Prelude
  import opened Amount
  import opened Notes
  import opened Watcher
  import opened Shielded

  /** What the node answers for one transaction of a block: nothing, bytes that
      do not read as a transaction, or its actions. */
  datatype TxReply = Failed | Unreadable | Raw(txid: Hash, actions: seq<RawAction>)

  datatype BlockReply = NoTxids | Txids(txs: seq<TxReply>)

  datatype Error = Rpc | UnattributableAt(height: nat, amount: i128)

  type Found = (seq<ObservedDeposit>, seq<ForcedSighting>)

  datatype Pools = Pools(orchard: Store, ironwood: Store)

  // ------------------------------------------------------------ one transaction

  /** The lenient scan of a transaction, when it can be read. */
  function Read(t: TxReply, keys: Keys, height: nat): Option<Scanned> {
    if !t.Raw? then None else
      match ScanSpec(t.actions, keys, t.txid, height, map[], true)
      case Err(_) => None
      case Ok(s) => Some(s)
  }

  function ActionsOf(t: TxReply, keys: Keys, height: nat): seq<ScannedAction> {
    var s := Read(t, keys, height);
    if s.Some? then s.value.actions else []
  }

  function TxidOf(t: TxReply): Hash {
    if t.Raw? then t.txid else 0
  }

  /** Some action in this pool reveals a nullifier the store knows. */
  predicate SpendsKnown(s: Store, actions: seq<ScannedAction>, p: ValuePool, key: NullifierOf) {
    exists i :: 0 <= i < |actions| && actions[i].pool == p && Recognises(s, actions[i].nullifier, key)
  }

  /** Every nullifier the transaction reveals in this pool, shown to the store. */
  function SpendPool(s: Store, actions: seq<ScannedAction>, p: ValuePool, key: NullifierOf): Store {
    if actions == [] then s else
      var a := actions[|actions| - 1];
      var before := SpendPool(s, actions[..|actions| - 1], p, key);
      if a.pool == p then NullifierSpec(before, a.nullifier, key).0 else before
  }

  function AppendOne(s: Store, a: ScannedAction, height: nat, txid: Hash): Store {
    var (s', pos) := AppendSpec(s, a.cmx, a.ours.Some?);
    if a.ours.Some? && pos.Some? then HoldSpec(s', a.ours.value, pos.value, height, txid) else s'
  }

  /** Every commitment of the transaction in this pool, appended; ours held. */
  function AppendPool(s: Store, actions: seq<ScannedAction>, p: ValuePool, height: nat, txid: Hash): Store {
    if actions == [] then s else
      var a := actions[|actions| - 1];
      var before := AppendPool(s, actions[..|actions| - 1], p, height, txid);
      if a.pool == p then AppendOne(before, a, height, txid) else before
  }

  function PoolTx(s: Store, t: TxReply, p: ValuePool, height: nat, keys: Keys): Store {
    var actions := ActionsOf(t, keys, height);
    AppendPool(SpendPool(s, actions, p, keys.nullifier), actions, p, height, TxidOf(t))
  }

  /** A whole block's transactions, in one pool. */
  function PoolTxs(s: Store, txs: seq<TxReply>, p: ValuePool, height: nat, keys: Keys): Store {
    if txs == [] then s else
      PoolTx(PoolTxs(s, txs[..|txs| - 1], p, height, keys), txs[|txs| - 1], p, height, keys)
  }

  function ContextOf(spendsOurs: bool, attributions: map<Hash, AccountId>, txid: Hash, height: nat): Context {
    Context(spendsOurs, if txid in attributions then Some(attributions[txid]) else None, txid, height, map[])
  }

  /** What a transaction yields, given the stores just before it. */
  function TxOutcome(ps: Pools, t: TxReply, height: nat, keys: Keys, attributions: map<Hash, AccountId>)
    : Result<Found, Error>
  {
    if t.Failed? then Err(Rpc) else
      match Read(t, keys, height)
      case None => Ok(([], []))
      case Some(s) =>
        var spendsOurs := SpendsKnown(ps.orchard, s.actions, Orchard, keys.nullifier)
                       || SpendsKnown(ps.ironwood, s.actions, Ironwood, keys.nullifier);
        match ClassifySpec(s.actions, ContextOf(spendsOurs, attributions, t.txid, height))
        case Err(amount) => Err(UnattributableAt(height, amount))
        case Ok(ds) => Ok((ds, s.forced))
  }

  function SpendBoth(ps: Pools, actions: seq<ScannedAction>, key: NullifierOf): Pools {
    Pools(SpendPool(ps.orchard, actions, Orchard, key), SpendPool(ps.ironwood, actions, Ironwood, key))
  }

  function TxBoth(ps: Pools, t: TxReply, height: nat, keys: Keys): Pools {
    Pools(PoolTx(ps.orchard, t, Orchard, height, keys), PoolTx(ps.ironwood, t, Ironwood, height, keys))
  }

  /** The body of `feed_block`: it stops at the first failure, with the spends of
      the transaction it stopped at already applied unless it was never fetched. */
  function BodySpec(ps: Pools, txs: seq<TxReply>, height: nat, keys: Keys, attributions: map<Hash, AccountId>)
    : (Pools, Result<Found, Error>)
  {
    if txs == [] then (ps, Ok(([], []))) else
      var n := |txs| - 1;
      var (before, r) := BodySpec(ps, txs[..n], height, keys, attributions);
      if r.Err? then (before, r) else
        match TxOutcome(before, txs[n], height, keys, attributions)
        case Ok((ds, forced)) => (TxBoth(before, txs[n], height, keys), Ok((r.value.0 + ds, r.value.1 + forced)))
        case Err(e) => (SpendBoth(before, ActionsOf(txs[n], keys, height), keys.nullifier), Err(e))
  }

  /** Both trees already hold this block. */
  predicate Done(ps: Pools, height: nat) {
    match (ps.orchard.syncedTo, ps.ironwood.syncedTo)
    case (Some(a), Some(b)) => height <= if a < b then a else b
    case _ => false
  }

  function BeginBoth(ps: Pools, height: nat): Pools {
    Pools(BeginSpec(ps.orchard, height), BeginSpec(ps.ironwood, height))
  }

  function RewindBoth(ps: Pools): Pools {
    Pools(RewindSpec(ps.orchard).0, RewindSpec(ps.ironwood).0)
  }

  function FinishBoth(ps: Pools, height: nat): Pools {
    Pools(FinishSpec(ps.orchard, height), FinishSpec(ps.ironwood, height))
  }

  function FeedSpec(ps: Pools, reply: BlockReply, height: nat, keys: Keys, attributions: map<Hash, AccountId>)
    : (Pools, Result<Found, Error>)
  {
    if Done(ps, height) then (ps, Ok(([], []))) else
      var begun := BeginBoth(ps, height);
      if reply.NoTxids? then (RewindBoth(begun), Err(Rpc)) else
        var (after, r) := BodySpec(begun, reply.txs, height, keys, attributions);
        if r.Ok? then (FinishBoth(after, height), r) else (RewindBoth(after), r)
  }

  // ------------------------------------------------------------ the method

  ghost function Both(o: NoteStore, i: NoteStore): Pools
    reads o, i
  {
    Pools(o.Model(), i.Model())
  }

  method FeedBlock(
      o: NoteStore, i: NoteStore, reply: BlockReply, height: nat, keys: Keys, attributions: map<Hash, AccountId>)
    returns (r: Result<Found, Error>)
    requires o != i
    modifies o, i
    ensures (Both(o, i), r) == FeedSpec(old(Both(o, i)), reply, height, keys, attributions)
  {
    var done := match (o.syncedTo, i.syncedTo)
      case (Some(a), Some(b)) => height <= if a < b then a else b
      case _ => false;
    if done {
      return Ok(([], []));
    }
    o.BeginBlock(height);
    i.BeginBlock(height);
    r := FeedBody(o, i, reply, height, keys, attributions);
    FeedEnds(old(Both(o, i)), Both(o, i), r, reply, height, keys, attributions);
    if r.Ok? {
      o.FinishBlock(height);
      i.FinishBlock(height);
    } else {
      var undone := o.Rewind();
      undone := i.Rewind();
    }
  }

  lemma FeedEnds(
      ps: Pools, after: Pools, r: Result<Found, Error>, reply: BlockReply, height: nat, keys: Keys,
      attributions: map<Hash, AccountId>)
    requires !Done(ps, height)
    requires reply.NoTxids? ==> r == Err(Rpc) && after == BeginBoth(ps, height)
    requires reply.Txids? ==> (after, r) == BodySpec(BeginBoth(ps, height), reply.txs, height, keys, attributions)
    ensures FeedSpec(ps, reply, height, keys, attributions)
         == (if r.Ok? then FinishBoth(after, height) else RewindBoth(after), r)
  {
  }

  method FeedBody(
      o: NoteStore, i: NoteStore, reply: BlockReply, height: nat, keys: Keys, attributions: map<Hash, AccountId>)
    returns (r: Result<Found, Error>)
    requires o != i
    modifies o, i
    ensures reply.NoTxids? ==> r == Err(Rpc) && Both(o, i) == old(Both(o, i))
    ensures reply.Txids? ==> (Both(o, i), r) == BodySpec(old(Both(o, i)), reply.txs, height, keys, attributions)
  {
    if reply.NoTxids? {
      return Err(Rpc);
    }
    var txs := reply.txs;
    var deposits: seq<ObservedDeposit> := [];
    var forced: seq<ForcedSighting> := [];
    var k := 0;
    while k < |txs|
      invariant 0 <= k <= |txs|
      invariant (Both(o, i), Ok((deposits, forced))) == BodySpec(old(Both(o, i)), txs[..k], height, keys, attributions)
    {
      BodyGoesOn(old(Both(o, i)), Both(o, i), txs, k, (deposits, forced), height, keys, attributions);
      FailureStops(old(Both(o, i)), txs, k + 1, height, keys, attributions);
      var one := FeedTx(o, i, txs[k], height, keys, attributions);
      if one.Err? {
        return Err(one.error);
      }
      deposits := deposits + one.value.0;
      forced := forced + one.value.1;
      k := k + 1;
    }
    assert txs[..k] == txs;
    r := Ok((deposits, forced));
  }

  lemma BodyGoesOn(
      ps: Pools, qs: Pools, txs: seq<TxReply>, k: nat, found: Found, height: nat, keys: Keys,
      attributions: map<Hash, AccountId>)
    requires k < |txs| && BodySpec(ps, txs[..k], height, keys, attributions) == (qs, Ok(found))
    ensures BodySpec(ps, txs[..k + 1], height, keys, attributions)
         == match TxOutcome(qs, txs[k], height, keys, attributions)
            case Ok((ds, forced)) => (TxBoth(qs, txs[k], height, keys), Ok((found.0 + ds, found.1 + forced)))
            case Err(e) => (SpendBoth(qs, ActionsOf(txs[k], keys, height), keys.nullifier), Err(e))
  {
    assert txs[..k + 1][..k] == txs[..k];
  }

  lemma {:induction false} FailureStops(
      ps: Pools, txs: seq<TxReply>, k: nat, height: nat, keys: Keys, attributions: map<Hash, AccountId>)
    requires k <= |txs|
    ensures var front := BodySpec(ps, txs[..k], height, keys, attributions);
            front.1.Err? ==> BodySpec(ps, txs, height, keys, attributions) == front
    decreases |txs| - k
  {
    if k < |txs| {
      assert txs[..k + 1][..k] == txs[..k];
      FailureStops(ps, txs, k + 1, height, keys, attributions);
    } else {
      assert txs[..k] == txs;
    }
  }

  /** One turn of the loop over a block's transactions. */
  method FeedTx(o: NoteStore, i: NoteStore, t: TxReply, height: nat, keys: Keys, attributions: map<Hash, AccountId>)
    returns (r: Result<Found, Error>)
    requires o != i
    modifies o, i
    ensures r == TxOutcome(old(Both(o, i)), t, height, keys, attributions)
    ensures r.Ok? ==> Both(o, i) == TxBoth(old(Both(o, i)), t, height, keys)
    ensures r.Err? ==> Both(o, i) == SpendBoth(old(Both(o, i)), ActionsOf(t, keys, height), keys.nullifier)
  {
    if t.Failed? {
      return Err(Rpc);
    }
    if t.Unreadable? {
      return Ok(([], []));
    }
    var scan := Scan(t.actions, keys, t.txid, height, map[], true);
    if scan.Err? {
      return Ok(([], []));
    }
    var s := scan.value;
    var inOrchard := AnyKnown(o, s.actions, Orchard, keys);
    var inIronwood := AnyKnown(i, s.actions, Ironwood, keys);
    SpendLoop(o, i, s.actions, keys.nullifier);
    var ds := ClassifyAddressed(s.actions, ContextOf(inOrchard || inIronwood, attributions, t.txid, height));
    if ds.Err? {
      return Err(UnattributableAt(height, ds.error));
    }
    AppendLoop(o, i, s.actions, height, t.txid);
    r := Ok((ds.value, s.forced));
  }

  method AnyKnown(store: NoteStore, actions: seq<ScannedAction>, p: ValuePool, keys: Keys) returns (known: bool)
    ensures known == SpendsKnown(store.Model(), actions, p, keys.nullifier)
  {
    var k := 0;
    while k < |actions|
      invariant 0 <= k <= |actions|
      invariant forall j :: 0 <= j < k && actions[j].pool == p ==>
                  !Recognises(store.Model(), actions[j].nullifier, keys.nullifier)
    {
      if actions[k].pool == p {
        var ours := store.HoldsNullifier(actions[k].nullifier, keys.nullifier);
        if ours {
          return true;
        }
      }
      k := k + 1;
    }
    known := false;
  }

  method SpendLoop(o: NoteStore, i: NoteStore, actions: seq<ScannedAction>, key: NullifierOf)
    requires o != i
    modifies o, i
    ensures Both(o, i) == SpendBoth(old(Both(o, i)), actions, key)
  {
    var k := 0;
    while k < |actions|
      invariant 0 <= k <= |actions|
      invariant Both(o, i) == SpendBoth(old(Both(o, i)), actions[..k], key)
    {
      var a := actions[k];
      assert actions[..k + 1][..k] == actions[..k];
      if a.pool == Orchard {
        var gone := o.SpendNullifier(a.nullifier, key);
      } else {
        var gone := i.SpendNullifier(a.nullifier, key);
      }
      k := k + 1;
    }
    assert actions[..k] == actions;
  }

  method AppendLoop(o: NoteStore, i: NoteStore, actions: seq<ScannedAction>, height: nat, txid: Hash)
    requires o != i
    modifies o, i
    ensures o.Model() == AppendPool(old(o.Model()), actions, Orchard, height, txid)
    ensures i.Model() == AppendPool(old(i.Model()), actions, Ironwood, height, txid)
  {
    var k := 0;
    while k < |actions|
      invariant 0 <= k <= |actions|
      invariant o.Model() == AppendPool(old(o.Model()), actions[..k], Orchard, height, txid)
      invariant i.Model() == AppendPool(old(i.Model()), actions[..k], Ironwood, height, txid)
    {
      assert actions[..k + 1][..k] == actions[..k];
      if actions[k].pool == Orchard {
        AppendAndHold(o, actions[k], height, txid);
      } else {
        AppendAndHold(i, actions[k], height, txid);
      }
      k := k + 1;
    }
    assert actions[..k] == actions;
  }

  method AppendAndHold(s: NoteStore, a: ScannedAction, height: nat, txid: Hash)
    modifies s
    ensures s.Model() == AppendOne(old(s.Model()), a, height, txid)
  {
    var pos := s.Append(a.cmx, a.ours.Some?);
    if a.ours.Some? && pos.Some? {
      s.Hold(a.ours.value, pos.value, height, txid);
    }
  }
}
