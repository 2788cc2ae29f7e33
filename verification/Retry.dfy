/** Retry transparency: what failed attempts at a block leave behind is invisible
    to the attempt that succeeds (src/shielded.rs, src/notes.rs).

    A failed attempt does leave something: the nullifiers it showed to the store
    stay known as spent and their notes stay forgotten, and a full checkpoint
    stack stays one shorter. The proof carries that residue along, as the set
    `y` of nullifiers spent ahead of time, and shows a pass over the block
    coming to the same end with it and without it. */
module Retry {
  import opened Prelude
  import opened Notes
  import opened Shielded
  import opened Scanner

  // ------------------------------------------------------------ known notes

  function Minus(m: map<nat, HeldNote>, r: set<Hash>, key: NullifierOf): map<nat, HeldNote> {
    map p | p in m && key(m[p].note) !in r :: m[p]
  }

  function NfsOf(m: map<nat, HeldNote>, key: NullifierOf): set<Hash> {
    set p | p in m :: key(m[p].note)
  }

  function Known(s: Store, key: NullifierOf): set<Hash> {
    NfsOf(s.held, key) + NfsOf(s.inFlight, key)
  }

  /** Each note under its own position, each with a nullifier of its own. */
  ghost predicate Injective(m: map<nat, HeldNote>, key: NullifierOf) {
    Keyed(m) && forall p, q :: p in m && q in m && p != q ==> key(m[p].note) != key(m[q].note)
  }

  /** No two notes the store knows share a nullifier. */
  ghost predicate Unique(s: Store, key: NullifierOf) {
    Injective(s.held, key) && Injective(s.inFlight, key) && NfsOf(s.held, key) !! NfsOf(s.inFlight, key)
  }

  lemma RecognisesIs(s: Store, nf: Hash, key: NullifierOf)
    ensures Recognises(s, nf, key) <==> nf in s.spent || nf in Known(s, key)
  {
  }

  /** The nullifiers a transaction reveals in a pool. */
  function Revealed(actions: seq<ScannedAction>, p: ValuePool): set<Hash> {
    if actions == [] then {} else
      var a := actions[|actions| - 1];
      Revealed(actions[..|actions| - 1], p) + if a.pool == p then {a.nullifier} else {}
  }

  /** Forget every known note revealed, in one go. */
  function Purge(s: Store, r: set<Hash>, key: NullifierOf): Store {
    s.(held := Minus(s.held, r, key), inFlight := Minus(s.inFlight, r, key), spent := s.spent + r * Known(s, key))
  }

  lemma WithoutIsMinus(m: map<nat, HeldNote>, p: nat, key: NullifierOf)
    requires Injective(m, key) && p in m
    ensures Without(m, p) == Minus(m, {key(m[p].note)}, key)
  {
  }

  lemma MinusForeign(m: map<nat, HeldNote>, nf: Hash, key: NullifierOf)
    requires nf !in NfsOf(m, key)
    ensures Minus(m, {nf}, key) == m
  {
  }

  lemma PurgeOne(s: Store, nf: Hash, key: NullifierOf)
    requires Unique(s, key)
    ensures NullifierSpec(s, nf, key).0 == Purge(s, {nf}, key)
  {
    if Find(s.inFlight, nf, key).Some? {
      PurgeFlying(s, Find(s.inFlight, nf, key).value, key);
    } else if Find(s.held, nf, key).Some? {
      PurgeHeld(s, Find(s.held, nf, key).value, key);
    } else {
      PurgeUnknown(s, nf, key);
    }
  }

  lemma PurgeUnknown(s: Store, nf: Hash, key: NullifierOf)
    requires nf !in Known(s, key)
    ensures Purge(s, {nf}, key) == s
  {
    MinusForeign(s.inFlight, nf, key);
    MinusForeign(s.held, nf, key);
    assert s.spent + {nf} * Known(s, key) == s.spent;
  }

  lemma PurgeFlying(s: Store, p: nat, key: NullifierOf)
    requires Unique(s, key) && p in s.inFlight
    ensures var nf := key(s.inFlight[p].note);
            s.(inFlight := Without(s.inFlight, p), spent := s.spent + {nf}) == Purge(s, {nf}, key)
  {
    var nf := key(s.inFlight[p].note);
    assert nf in NfsOf(s.inFlight, key);
    WithoutIsMinus(s.inFlight, p, key);
    MinusForeign(s.held, nf, key);
    assert {nf} * Known(s, key) == {nf};
  }

  lemma PurgeHeld(s: Store, p: nat, key: NullifierOf)
    requires Unique(s, key) && p in s.held
    ensures var nf := key(s.held[p].note);
            s.(held := Without(s.held, p), spent := s.spent + {nf}) == Purge(s, {nf}, key)
  {
    var nf := key(s.held[p].note);
    assert nf in NfsOf(s.held, key);
    WithoutIsMinus(s.held, p, key);
    MinusForeign(s.inFlight, nf, key);
    assert {nf} * Known(s, key) == {nf};
  }

  lemma MinusTwice(m: map<nat, HeldNote>, a: set<Hash>, b: set<Hash>, key: NullifierOf)
    ensures Minus(Minus(m, a, key), b, key) == Minus(m, a + b, key)
    ensures NfsOf(Minus(m, a, key), key) == NfsOf(m, key) - a
  {
    forall nf | nf in NfsOf(m, key) - a ensures nf in NfsOf(Minus(m, a, key), key) {
      var p :| p in m && key(m[p].note) == nf;
      assert p in Minus(m, a, key);
    }
  }

  lemma PurgeKnown(s: Store, r: set<Hash>, key: NullifierOf)
    ensures Known(Purge(s, r, key), key) == Known(s, key) - r
  {
    MinusTwice(s.held, r, {}, key);
    MinusTwice(s.inFlight, r, {}, key);
  }

  lemma PurgeTwice(s: Store, a: set<Hash>, b: set<Hash>, key: NullifierOf)
    ensures Purge(Purge(s, a, key), b, key) == Purge(s, a + b, key)
  {
    MinusTwice(s.held, a, b, key);
    MinusTwice(s.inFlight, a, b, key);
    PurgeKnown(s, a, key);
    assert (s.spent + a * Known(s, key)) + b * (Known(s, key) - a) == s.spent + (a + b) * Known(s, key);
  }

  lemma PurgeNothing(s: Store, key: NullifierOf)
    ensures Purge(s, {}, key) == s
  {
    assert Minus(s.held, {}, key) == s.held && Minus(s.inFlight, {}, key) == s.inFlight;
    assert s.spent + {} * Known(s, key) == s.spent;
  }

  lemma PurgeUnique(s: Store, r: set<Hash>, key: NullifierOf)
    requires Unique(s, key)
    ensures Unique(Purge(s, r, key), key)
  {
    MinusTwice(s.held, r, {}, key);
    MinusTwice(s.inFlight, r, {}, key);
  }

  /** Showing a transaction's nullifiers one by one forgets exactly the notes revealed. */
  lemma {:induction false} SpendPoolIsPurge(s: Store, actions: seq<ScannedAction>, p: ValuePool, key: NullifierOf)
    requires Unique(s, key)
    ensures SpendPool(s, actions, p, key) == Purge(s, Revealed(actions, p), key)
  {
    if actions == [] {
      PurgeNothing(s, key);
    } else {
      var front, a := actions[..|actions| - 1], actions[|actions| - 1];
      SpendPoolIsPurge(s, front, p, key);
      if a.pool == p {
        PurgeUnique(s, Revealed(front, p), key);
        PurgeOne(Purge(s, Revealed(front, p), key), a.nullifier, key);
        PurgeTwice(s, Revealed(front, p), {a.nullifier}, key);
      } else {
        assert Revealed(front, p) + {} == Revealed(front, p);
      }
    }
  }

  // ------------------------------------------------------------ with and without a residue

  /** Old notes, below position `c`, less those spent ahead of time. */
  function KeepOld(m: map<nat, HeldNote>, y: set<Hash>, c: nat, key: NullifierOf): map<nat, HeldNote> {
    map p | p in m && !(p < c && key(m[p].note) in y) :: m[p]
  }

  /** `t` is `s` with the nullifiers `y` spent ahead of time. */
  ghost predicate Ahead(s: Store, t: Store, y: set<Hash>, c: nat, key: NullifierOf) {
    && t.tree == s.tree && t.appended == s.appended && t.syncedTo == s.syncedTo
    && t.spent == s.spent + y
    && t.held == KeepOld(s.held, y, c, key)
    && t.inFlight == Minus(s.inFlight, y, key)
  }

  lemma AheadKnown(s: Store, t: Store, y: set<Hash>, c: nat, key: NullifierOf)
    requires Ahead(s, t, y, c, key)
    ensures Known(t, key) <= Known(s, key) <= Known(t, key) + y
  {
    forall nf | nf in Known(s, key) && nf !in y ensures nf in Known(t, key) {
      if nf in NfsOf(s.held, key) {
        var p :| p in s.held && key(s.held[p].note) == nf;
        assert p in t.held;
      } else {
        var p :| p in s.inFlight && key(s.inFlight[p].note) == nf;
        assert p in t.inFlight;
      }
    }
  }

  lemma AheadUnique(s: Store, t: Store, y: set<Hash>, c: nat, key: NullifierOf)
    requires Ahead(s, t, y, c, key) && Unique(s, key)
    ensures Unique(t, key)
  {
    assert NfsOf(t.held, key) <= NfsOf(s.held, key);
    assert NfsOf(t.inFlight, key) <= NfsOf(s.inFlight, key);
  }

  lemma AheadPurge(s: Store, t: Store, y: set<Hash>, c: nat, r: set<Hash>, key: NullifierOf)
    requires Ahead(s, t, y, c, key)
    ensures Ahead(Purge(s, r, key), Purge(t, r, key), y, c, key)
  {
    AheadKnown(s, t, y, c, key);
    assert Minus(KeepOld(s.held, y, c, key), r, key) == KeepOld(Minus(s.held, r, key), y, c, key);
    assert Minus(Minus(s.inFlight, y, key), r, key) == Minus(Minus(s.inFlight, r, key), y, key);
  }

  lemma AheadAppendOne(
      s: Store, t: Store, y: set<Hash>, c: nat, a: ScannedAction, height: nat, txid: Hash, key: NullifierOf)
    requires Ahead(s, t, y, c, key) && c <= |s.tree.leaves|
    ensures Ahead(AppendOne(s, a, height, txid), AppendOne(t, a, height, txid), y, c, key)
    ensures c <= |AppendOne(s, a, height, txid).tree.leaves|
  {
    SameAppend(s, t, a, height, txid);
    if a.ours.Some? && |s.tree.leaves| < CAPACITY {
      var pos := |s.tree.leaves|;
      KeepOldInsert(s.held, pos, HeldNote(a.ours.value, pos, height, txid), y, c, key);
    }
  }

  /** Two stores with one tree append alike. */
  lemma SameAppend(s: Store, t: Store, a: ScannedAction, height: nat, txid: Hash)
    requires s.tree == t.tree && s.appended == t.appended
    ensures var s', t' := AppendOne(s, a, height, txid), AppendOne(t, a, height, txid);
            && s'.tree == t'.tree && s'.appended == t'.appended && |s.tree.leaves| <= |s'.tree.leaves|
            && s'.(tree := s.tree, appended := s.appended, held := s.held) == s
            && t'.(tree := t.tree, appended := t.appended, held := t.held) == t
            && var pos := |s.tree.leaves|;
               if a.ours.Some? && pos < CAPACITY then
                 var n := HeldNote(a.ours.value, pos, height, txid);
                 s'.held == s.held[pos := n] && t'.held == t.held[pos := n]
               else s'.held == s.held && t'.held == t.held
  {
  }

  lemma KeepOldInsert(m: map<nat, HeldNote>, pos: nat, n: HeldNote, y: set<Hash>, c: nat, key: NullifierOf)
    requires pos >= c
    ensures KeepOld(m[pos := n], y, c, key) == KeepOld(m, y, c, key)[pos := n]
  {
  }

  lemma {:induction false} AheadAppend(
      s: Store, t: Store, y: set<Hash>, c: nat, actions: seq<ScannedAction>, p: ValuePool, height: nat, txid: Hash,
      key: NullifierOf)
    requires Ahead(s, t, y, c, key) && c <= |s.tree.leaves|
    ensures Ahead(AppendPool(s, actions, p, height, txid), AppendPool(t, actions, p, height, txid), y, c, key)
    ensures c <= |AppendPool(s, actions, p, height, txid).tree.leaves|
  {
    if actions != [] {
      var n := |actions| - 1;
      AheadAppend(s, t, y, c, actions[..n], p, height, txid, key);
      if actions[n].pool == p {
        AheadAppendOne(AppendPool(s, actions[..n], p, height, txid), AppendPool(t, actions[..n], p, height, txid),
                       y, c, actions[n], height, txid, key);
      }
    }
  }

  /** A transaction moves both alike. */
  lemma AheadTx(s: Store, t: Store, y: set<Hash>, c: nat, tx: TxReply, p: ValuePool, height: nat, keys: Keys)
    requires Ahead(s, t, y, c, keys.nullifier) && Unique(s, keys.nullifier) && c <= |s.tree.leaves|
    ensures Ahead(PoolTx(s, tx, p, height, keys), PoolTx(t, tx, p, height, keys), y, c, keys.nullifier)
    ensures c <= |PoolTx(s, tx, p, height, keys).tree.leaves|
  {
    var actions := ActionsOf(tx, keys, height);
    AheadSpend(s, t, y, c, actions, p, keys.nullifier);
    AheadAppend(SpendPool(s, actions, p, keys.nullifier), SpendPool(t, actions, p, keys.nullifier),
                y, c, actions, p, height, TxidOf(tx), keys.nullifier);
  }

  lemma AheadSpend(
      s: Store, t: Store, y: set<Hash>, c: nat, actions: seq<ScannedAction>, p: ValuePool, key: NullifierOf)
    requires Ahead(s, t, y, c, key) && Unique(s, key)
    ensures Ahead(SpendPool(s, actions, p, key), SpendPool(t, actions, p, key), y, c, key)
    ensures SpendPool(s, actions, p, key).tree == s.tree
  {
    AheadUnique(s, t, y, c, key);
    SpendPoolIsPurge(s, actions, p, key);
    SpendPoolIsPurge(t, actions, p, key);
    AheadPurge(s, t, y, c, Revealed(actions, p), key);
  }

  // ------------------------------------------------------------ a clean pass

  /** The notes of ours a transaction creates in a pool, by nullifier. */
  function Created(actions: seq<ScannedAction>, p: ValuePool, key: NullifierOf): set<Hash> {
    if actions == [] then {} else
      var a := actions[|actions| - 1];
      Created(actions[..|actions| - 1], p, key) + if a.pool == p && a.ours.Some? then {key(a.ours.value)} else {}
  }

  /** Each note created is new: its nullifier is not among `taken`, nor that of
      a note created just before. */
  ghost predicate NewNotes(taken: set<Hash>, actions: seq<ScannedAction>, p: ValuePool, key: NullifierOf) {
    actions == [] ||
      var front, a := actions[..|actions| - 1], actions[|actions| - 1];
      && NewNotes(taken, front, p, key)
      && (a.pool == p && a.ours.Some? ==> key(a.ours.value) !in taken + Created(front, p, key))
  }

  function Below(m: map<nat, HeldNote>, c: nat): map<nat, HeldNote> {
    map p | p in m && p < c :: m[p]
  }

  /** Where a pass that started from `s0` stands: the tree has only grown above
      `c`, and of the old notes exactly those not spent are left. */
  ghost predicate Clean(s0: Store, s: Store, c: nat, taken: set<Hash>, key: NullifierOf) {
    && Unique(s, key)
    && Known(s, key) + s.spent <= taken && Known(s, key) !! s.spent
    && s0.spent <= s.spent
    && Below(s.held, c) == Minus(s0.held, s.spent, key)
    && s.inFlight == Minus(s0.inFlight, s.spent, key)
    && s.syncedTo == s0.syncedTo
    && Grown(s0.tree, s.tree, c)
  }

  ghost predicate Grown(t0: Tree, t: Tree, c: nat) {
    && c <= |t0.leaves| && t0.leaves <= t.leaves
    && t.checkpoints == t0.checkpoints
    && (forall p :: p < c ==> (p in t.marked <==> p in t0.marked))
  }

  lemma CleanPurge(s0: Store, s: Store, c: nat, taken: set<Hash>, r: set<Hash>, key: NullifierOf)
    requires Clean(s0, s, c, taken, key)
    requires forall p :: p in s0.held ==> p < c
    ensures Clean(s0, Purge(s, r, key), c, taken, key)
  {
    PurgeUnique(s, r, key);
    PurgeKnown(s, r, key);
    var s' := Purge(s, r, key);
    assert Below(s'.held, c) == Minus(Below(s.held, c), r, key);
    StillUnspent(s0.held, s.held, s.spent, s'.spent, c, r, s, key);
    FlightUnspent(s0, s, r, key);
  }

  lemma StillUnspent(m0: map<nat, HeldNote>, m: map<nat, HeldNote>, spent: set<Hash>, spent': set<Hash>, c: nat,
                     r: set<Hash>, s: Store, key: NullifierOf)
    requires Below(m, c) == Minus(m0, spent, key) && m == s.held && spent' == spent + r * Known(s, key)
    ensures Minus(Below(m, c), r, key) == Minus(m0, spent', key)
  {
    forall p | p in m0 ensures p in Minus(Below(m, c), r, key) <==> p in Minus(m0, spent', key) {
      if p in Below(m, c) {
        assert p in Minus(m0, spent, key) && m[p] == m0[p];
        assert key(m[p].note) in NfsOf(m, key);
      } else {
        assert p !in Minus(m0, spent, key);
      }
    }
    MinusTwice(m0, spent, r, key);
  }

  lemma FlightUnspent(s0: Store, s: Store, r: set<Hash>, key: NullifierOf)
    requires s.inFlight == Minus(s0.inFlight, s.spent, key)
    ensures Minus(s.inFlight, r, key) == Minus(s0.inFlight, s.spent + r * Known(s, key), key)
  {
    forall p | p in s0.inFlight
      ensures p in Minus(s.inFlight, r, key) <==> p in Minus(s0.inFlight, s.spent + r * Known(s, key), key)
    {
      if p in s.inFlight {
        assert key(s.inFlight[p].note) in NfsOf(s.inFlight, key);
      }
    }
  }

  lemma CleanAppendOne(
      s0: Store, s: Store, c: nat, taken: set<Hash>, a: ScannedAction, height: nat, txid: Hash, key: NullifierOf)
    requires Clean(s0, s, c, taken, key) && (forall q :: q in s.held ==> q < |s.tree.leaves|)
    requires a.ours.Some? ==> key(a.ours.value) !in taken
    ensures var s' := AppendOne(s, a, height, txid);
            Clean(s0, s', c, if a.ours.Some? then taken + {key(a.ours.value)} else taken, key)
            && (forall q :: q in s'.held ==> q < |s'.tree.leaves|)
  {
    SameAppend(s, s, a, height, txid);
    StillGrown(s0, s, a, c, height, txid);
    var s' := AppendOne(s, a, height, txid);
    if a.ours.Some? && |s.tree.leaves| < CAPACITY {
      HoldNew(s, s', |s.tree.leaves|, c, taken, key);
    }
  }

  lemma StillGrown(s0: Store, s: Store, a: ScannedAction, c: nat, height: nat, txid: Hash)
    requires Grown(s0.tree, s.tree, c)
    ensures Grown(s0.tree, AppendOne(s, a, height, txid).tree, c)
  {
  }

  lemma HoldNew(s: Store, s': Store, pos: nat, c: nat, taken: set<Hash>, key: NullifierOf)
    requires Unique(s, key) && Known(s, key) <= taken && pos !in s.held && pos >= c
    requires Known(s, key) !! s.spent && s.spent <= taken
    requires pos in s'.held && s'.held == s.held[pos := s'.held[pos]] && s'.inFlight == s.inFlight
    requires s'.held[pos].position == pos
    requires key(s'.held[pos].note) !in taken
    ensures Unique(s', key) && Known(s', key) <= taken + {key(s'.held[pos].note)} && Known(s', key) !! s.spent
    ensures Below(s'.held, c) == Below(s.held, c)
  {
    forall q | q in s.held ensures key(s.held[q].note) in taken {
      assert key(s.held[q].note) in NfsOf(s.held, key);
    }
    forall nf | nf in NfsOf(s'.held, key) ensures nf == key(s'.held[pos].note) || nf in NfsOf(s.held, key) {
    }
  }

  lemma {:induction false} CleanAppend(
      s0: Store, s: Store, c: nat, taken: set<Hash>, actions: seq<ScannedAction>, p: ValuePool, height: nat,
      txid: Hash, key: NullifierOf)
    requires Clean(s0, s, c, taken, key) && (forall q :: q in s.held ==> q < |s.tree.leaves|)
    requires NewNotes(taken, actions, p, key)
    ensures var s' := AppendPool(s, actions, p, height, txid);
            Clean(s0, s', c, taken + Created(actions, p, key), key)
            && (forall q :: q in s'.held ==> q < |s'.tree.leaves|)
            && s'.spent == s.spent
  {
    if actions == [] {
      assert taken + {} == taken;
    } else {
      var n := |actions| - 1;
      var front, a := actions[..n], actions[n];
      CleanAppend(s0, s, c, taken, front, p, height, txid, key);
      var mid := taken + Created(front, p, key);
      if a.pool == p {
        CleanAppendOne(s0, AppendPool(s, front, p, height, txid), c, mid, a, height, txid, key);
      }
      assert taken + Created(actions, p, key)
          == if a.pool == p && a.ours.Some? then mid + {key(a.ours.value)} else mid;
    }
  }

  // ------------------------------------------------------------ the block

  /** The notes of ours a block creates in a pool. */
  function CreatedBy(txs: seq<TxReply>, p: ValuePool, height: nat, keys: Keys): set<Hash> {
    if txs == [] then {} else
      CreatedBy(txs[..|txs| - 1], p, height, keys) + Created(ActionsOf(txs[|txs| - 1], keys, height), p, keys.nullifier)
  }

  /** Every note of ours in the block is new to the store and to the block. */
  ghost predicate AllNew(taken: set<Hash>, txs: seq<TxReply>, p: ValuePool, height: nat, keys: Keys) {
    txs == [] ||
      var front := txs[..|txs| - 1];
      && AllNew(taken, front, p, height, keys)
      && NewNotes(taken + CreatedBy(front, p, height, keys), ActionsOf(txs[|txs| - 1], keys, height), p, keys.nullifier)
  }

  function RevealedBy(t: TxReply, p: ValuePool, height: nat, keys: Keys): set<Hash> {
    Revealed(ActionsOf(t, keys, height), p)
  }

  /** No nullifier is revealed by two transactions of the block. */
  ghost predicate RevealedOnce(txs: seq<TxReply>, p: ValuePool, height: nat, keys: Keys) {
    forall i, j :: 0 <= i < j < |txs| ==> RevealedBy(txs[i], p, height, keys) !! RevealedBy(txs[j], p, height, keys)
  }

  /** What the chain guarantees of a block, and the store of itself, in one pool:
      notes have nullifiers of their own, a nullifier appears once, and the tree
      takes the block's checkpoint. */
  ghost predicate Sound(s: Store, txs: seq<TxReply>, p: ValuePool, height: nat, keys: Keys) {
    && Valid(s) && Unique(s, keys.nullifier) && Known(s, keys.nullifier) !! s.spent
    && TakesCheckpoint(s.tree, CheckpointId(height))
    && AllNew(Known(s, keys.nullifier) + s.spent, txs, p, height, keys)
    && RevealedOnce(txs, p, height, keys)
  }

  /** The store part-way through the block. */
  function At(s: Store, txs: seq<TxReply>, k: nat, p: ValuePool, height: nat, keys: Keys): Store
    requires k <= |txs|
  {
    PoolTxs(BeginSpec(s, height), txs[..k], p, height, keys)
  }

  lemma AtNext(s: Store, txs: seq<TxReply>, k: nat, p: ValuePool, height: nat, keys: Keys)
    requires k < |txs|
    ensures At(s, txs, k + 1, p, height, keys) == PoolTx(At(s, txs, k, p, height, keys), txs[k], p, height, keys)
  {
    assert txs[..k + 1][..k] == txs[..k];
  }

  lemma CleanStart(s: Store, height: nat, key: NullifierOf)
    requires Valid(s) && Unique(s, key) && Known(s, key) !! s.spent
    ensures var b := BeginSpec(s, height);
            Clean(b, b, |s.tree.leaves|, Known(s, key) + s.spent, key)
  {
    var b := BeginSpec(s, height);
    forall p | p in s.held ensures p < |s.tree.leaves| && key(s.held[p].note) !in s.spent {
      assert key(s.held[p].note) in NfsOf(s.held, key);
    }
    forall p | p in s.inFlight ensures key(s.inFlight[p].note) !in s.spent {
      assert key(s.inFlight[p].note) in NfsOf(s.inFlight, key);
    }
    assert Below(b.held, |s.tree.leaves|) == Minus(b.held, b.spent, key);
    assert b.inFlight == Minus(b.inFlight, b.spent, key);
  }

  /** The store is clean at every point of a first pass. */
  ghost predicate CleanAfter(s: Store, txs: seq<TxReply>, k: nat, now: Store, p: ValuePool, height: nat, keys: Keys)
    requires k <= |txs|
  {
    && Clean(BeginSpec(s, height), now, |s.tree.leaves|,
             Known(s, keys.nullifier) + s.spent + CreatedBy(txs[..k], p, height, keys), keys.nullifier)
    && (forall q :: q in now.held ==> q < |now.tree.leaves|)
  }

  lemma CleanNext(s: Store, txs: seq<TxReply>, k: nat, now: Store, p: ValuePool, height: nat, keys: Keys)
    requires Sound(s, txs, p, height, keys) && k < |txs| && CleanAfter(s, txs, k, now, p, height, keys)
    ensures CleanAfter(s, txs, k + 1, PoolTx(now, txs[k], p, height, keys), p, height, keys)
  {
    var taken := Known(s, keys.nullifier) + s.spent;
    NewAt(taken, txs, k, p, height, keys);
    CleanTx(s, now, taken + CreatedBy(txs[..k], p, height, keys), txs[k], p, height, keys);
    assert txs[..k + 1][..k] == txs[..k];
    assert taken + CreatedBy(txs[..k + 1], p, height, keys)
        == taken + CreatedBy(txs[..k], p, height, keys) + Created(ActionsOf(txs[k], keys, height), p, keys.nullifier);
  }

  lemma {:induction false} CleanAt(s: Store, txs: seq<TxReply>, k: nat, p: ValuePool, height: nat, keys: Keys)
    requires Sound(s, txs, p, height, keys) && k <= |txs|
    ensures CleanAfter(s, txs, k, At(s, txs, k, p, height, keys), p, height, keys)
  {
    if k == 0 {
      CleanStart(s, height, keys.nullifier);
      assert txs[..0] == [];
      assert Known(s, keys.nullifier) + s.spent + {} == Known(s, keys.nullifier) + s.spent;
    } else {
      CleanAt(s, txs, k - 1, p, height, keys);
      AtNext(s, txs, k - 1, p, height, keys);
      CleanNext(s, txs, k - 1, At(s, txs, k - 1, p, height, keys), p, height, keys);
    }
  }

  lemma {:induction false} NewAt(taken: set<Hash>, txs: seq<TxReply>, k: nat, p: ValuePool, height: nat, keys: Keys)
    requires k < |txs| && AllNew(taken, txs, p, height, keys)
    ensures NewNotes(taken + CreatedBy(txs[..k], p, height, keys), ActionsOf(txs[k], keys, height), p, keys.nullifier)
    decreases |txs|
  {
    var n := |txs| - 1;
    AllNewParts(taken, txs, p, height, keys);
    if k < n {
      NewAt(taken, txs[..n], k, p, height, keys);
      assert txs[..n][..k] == txs[..k] && txs[..n][k] == txs[k];
    }
  }

  lemma AllNewParts(taken: set<Hash>, txs: seq<TxReply>, p: ValuePool, height: nat, keys: Keys)
    requires txs != [] && AllNew(taken, txs, p, height, keys)
    ensures var n := |txs| - 1;
            && AllNew(taken, txs[..n], p, height, keys)
            && NewNotes(taken + CreatedBy(txs[..n], p, height, keys), ActionsOf(txs[n], keys, height), p,
                        keys.nullifier)
  {
  }

  /** One transaction of a clean pass, spends and then notes. */
  lemma CleanTx(s0: Store, s: Store, taken: set<Hash>, t: TxReply, p: ValuePool, height: nat, keys: Keys)
    requires Valid(s0)
    requires Clean(BeginSpec(s0, height), s, |s0.tree.leaves|, taken, keys.nullifier)
    requires forall q :: q in s.held ==> q < |s.tree.leaves|
    requires NewNotes(taken, ActionsOf(t, keys, height), p, keys.nullifier)
    ensures var actions := ActionsOf(t, keys, height);
            var s' := PoolTx(s, t, p, height, keys);
            && Clean(BeginSpec(s0, height), s', |s0.tree.leaves|, taken + Created(actions, p, keys.nullifier),
                     keys.nullifier)
            && (forall q :: q in s'.held ==> q < |s'.tree.leaves|)
            && s'.spent == s.spent + RevealedBy(t, p, height, keys) * Known(s, keys.nullifier)
  {
    var key := keys.nullifier;
    var actions := ActionsOf(t, keys, height);
    CleanSpend(s0, s, taken, actions, p, height, key);
    CleanAppend(BeginSpec(s0, height), SpendPool(s, actions, p, key), |s0.tree.leaves|, taken, actions, p, height,
                TxidOf(t), key);
  }

  lemma CleanSpend(
      s0: Store, s: Store, taken: set<Hash>, actions: seq<ScannedAction>, p: ValuePool, height: nat, key: NullifierOf)
    requires Valid(s0) && Clean(BeginSpec(s0, height), s, |s0.tree.leaves|, taken, key)
    requires forall q :: q in s.held ==> q < |s.tree.leaves|
    ensures var s' := SpendPool(s, actions, p, key);
            && Clean(BeginSpec(s0, height), s', |s0.tree.leaves|, taken, key)
            && (forall q :: q in s'.held ==> q < |s'.tree.leaves|)
            && s'.spent == s.spent + Revealed(actions, p) * Known(s, key)
  {
    SpendPoolIsPurge(s, actions, p, key);
    CleanPurge(BeginSpec(s0, height), s, |s0.tree.leaves|, taken, Revealed(actions, p), key);
  }

  // ------------------------------------------------------------ recognising our own spends

  /** A nullifier spent by the end of the block and revealed by its k-th
      transaction was known to the store just before that transaction. */
  lemma SpentWasKnown(
      s: Store, txs: seq<TxReply>, k: nat, n: nat, nf: Hash, p: ValuePool, height: nat, keys: Keys)
    requires Sound(s, txs, p, height, keys) && k < n <= |txs|
    requires nf in RevealedBy(txs[k], p, height, keys) && nf in At(s, txs, n, p, height, keys).spent
    ensures Recognises(At(s, txs, k, p, height, keys), nf, keys.nullifier)
  {
    forall m | k <= m < n ensures SpentOnlyIf(s, txs, m, nf, p, height, keys) {
      SpentStep(s, txs, m, p, height, keys);
    }
    forall m | k < m < n ensures nf !in RevealedBy(txs[m], p, height, keys) {
      RevealedElsewhere(txs, k, m, nf, p, height, keys);
    }
    SpentSince(s, txs, k, n, nf, p, height, keys);
    RecognisesIs(At(s, txs, k, p, height, keys), nf, keys.nullifier);
  }

  /** Spent after a transaction: spent before it, or known then and revealed by it. */
  ghost predicate SpentOnlyIf(
      s: Store, txs: seq<TxReply>, m: nat, nf: Hash, p: ValuePool, height: nat, keys: Keys)
    requires m < |txs|
  {
    nf in At(s, txs, m + 1, p, height, keys).spent ==>
      || nf in At(s, txs, m, p, height, keys).spent
      || (nf in RevealedBy(txs[m], p, height, keys) && nf in Known(At(s, txs, m, p, height, keys), keys.nullifier))
  }

  lemma SpentBefore(s: Store, txs: seq<TxReply>, m: nat, n: nat, nf: Hash, p: ValuePool, height: nat, keys: Keys)
    requires m < |txs| && n == m + 1 && SpentOnlyIf(s, txs, m, nf, p, height, keys)
    requires nf in At(s, txs, n, p, height, keys).spent
    ensures var now := At(s, txs, m, p, height, keys);
            nf in now.spent || (nf in RevealedBy(txs[m], p, height, keys) && nf in Known(now, keys.nullifier))
  {
  }

  lemma {:induction false} SpentSince(
      s: Store, txs: seq<TxReply>, k: nat, n: nat, nf: Hash, p: ValuePool, height: nat, keys: Keys)
    requires k < n <= |txs| && forall m :: k <= m < n ==> SpentOnlyIf(s, txs, m, nf, p, height, keys)
    requires forall m :: k < m < n ==> nf !in RevealedBy(txs[m], p, height, keys)
    requires nf in At(s, txs, n, p, height, keys).spent
    ensures var now := At(s, txs, k, p, height, keys); nf in now.spent || nf in Known(now, keys.nullifier)
    decreases n
  {
    var m := n - 1;
    SpentBefore(s, txs, m, n, nf, p, height, keys);
    if k < m {
      SpentSince(s, txs, k, m, nf, p, height, keys);
    }
  }

  lemma RevealedElsewhere(txs: seq<TxReply>, k: nat, n: nat, nf: Hash, p: ValuePool, height: nat, keys: Keys)
    requires RevealedOnce(txs, p, height, keys) && k < n < |txs| && nf in RevealedBy(txs[k], p, height, keys)
    ensures nf !in RevealedBy(txs[n], p, height, keys)
  {
  }

  lemma SpentStep(s: Store, txs: seq<TxReply>, k: nat, p: ValuePool, height: nat, keys: Keys)
    requires Sound(s, txs, p, height, keys) && k < |txs|
    ensures var now := At(s, txs, k, p, height, keys);
            At(s, txs, k + 1, p, height, keys).spent
              == now.spent + RevealedBy(txs[k], p, height, keys) * Known(now, keys.nullifier)
  {
    var taken := Known(s, keys.nullifier) + s.spent;
    CleanAt(s, txs, k, p, height, keys);
    NewAt(taken, txs, k, p, height, keys);
    AtNext(s, txs, k, p, height, keys);
    CleanTx(s, At(s, txs, k, p, height, keys), taken + CreatedBy(txs[..k], p, height, keys), txs[k], p, height, keys);
  }

  lemma NullifierOnlySpends(s: Store, nf: Hash, key: NullifierOf)
    ensures s.spent <= NullifierSpec(s, nf, key).0.spent
  {
  }

  lemma {:induction false} SpendsOnlySpend(s: Store, actions: seq<ScannedAction>, p: ValuePool, key: NullifierOf)
    ensures s.spent <= SpendPool(s, actions, p, key).spent
  {
    if actions != [] {
      var n := |actions| - 1;
      SpendsOnlySpend(s, actions[..n], p, key);
      NullifierOnlySpends(SpendPool(s, actions[..n], p, key), actions[n].nullifier, key);
    }
  }

  lemma {:induction false} AppendsSpendNothing(
      s: Store, actions: seq<ScannedAction>, p: ValuePool, height: nat, txid: Hash)
    ensures AppendPool(s, actions, p, height, txid).spent == s.spent
  {
    if actions != [] {
      AppendsSpendNothing(s, actions[..|actions| - 1], p, height, txid);
    }
  }

  lemma TxOnlySpends(s: Store, t: TxReply, p: ValuePool, height: nat, keys: Keys)
    ensures s.spent <= PoolTx(s, t, p, height, keys).spent
  {
    var actions := ActionsOf(t, keys, height);
    SpendsOnlySpend(s, actions, p, keys.nullifier);
    AppendsSpendNothing(SpendPool(s, actions, p, keys.nullifier), actions, p, height, TxidOf(t));
  }

  /** What is known spent stays so to the end of the block. */
  lemma {:induction false} SpentGrows(
      s: Store, txs: seq<TxReply>, k: nat, n: nat, p: ValuePool, height: nat, keys: Keys)
    requires k <= n <= |txs|
    ensures At(s, txs, k, p, height, keys).spent <= At(s, txs, n, p, height, keys).spent
    decreases n
  {
    if k < n {
      SpentGrows(s, txs, k, n - 1, p, height, keys);
      AtNext(s, txs, n - 1, p, height, keys);
      TxOnlySpends(At(s, txs, n - 1, p, height, keys), txs[n - 1], p, height, keys);
    }
  }

  // ------------------------------------------------------------ a pass with a residue

  /** `t` is `s` after failed attempts at the block: the next attempt starts level
      with a first one, but for nullifiers the block will spend anyway. */
  ghost predicate Residue(s: Store, t: Store, y: set<Hash>, txs: seq<TxReply>, p: ValuePool, height: nat, keys: Keys) {
    && Ahead(BeginSpec(s, height), BeginSpec(t, height), y, |s.tree.leaves|, keys.nullifier)
    && y <= At(s, txs, |txs|, p, height, keys).spent
  }

  lemma {:induction false} AheadAt(
      s: Store, t: Store, y: set<Hash>, txs: seq<TxReply>, k: nat, p: ValuePool, height: nat, keys: Keys)
    requires Sound(s, txs, p, height, keys) && Residue(s, t, y, txs, p, height, keys) && k <= |txs|
    ensures var now := At(s, txs, k, p, height, keys);
            && Ahead(now, At(t, txs, k, p, height, keys), y, |s.tree.leaves|, keys.nullifier)
            && |s.tree.leaves| <= |now.tree.leaves|
  {
    if k == 0 {
      assert txs[..0] == [];
    } else {
      AheadAt(s, t, y, txs, k - 1, p, height, keys);
      AheadStep(s, t, y, txs, k - 1, p, height, keys);
    }
  }

  lemma AheadStep(s: Store, t: Store, y: set<Hash>, txs: seq<TxReply>, k: nat, p: ValuePool, height: nat, keys: Keys)
    requires Sound(s, txs, p, height, keys) && k < |txs|
    requires Ahead(At(s, txs, k, p, height, keys), At(t, txs, k, p, height, keys), y, |s.tree.leaves|, keys.nullifier)
    requires |s.tree.leaves| <= |At(s, txs, k, p, height, keys).tree.leaves|
    ensures Ahead(At(s, txs, k + 1, p, height, keys), At(t, txs, k + 1, p, height, keys), y, |s.tree.leaves|,
                  keys.nullifier)
    ensures |s.tree.leaves| <= |At(s, txs, k + 1, p, height, keys).tree.leaves|
  {
    CleanAt(s, txs, k, p, height, keys);
    AtNext(s, txs, k, p, height, keys);
    AtNext(t, txs, k, p, height, keys);
    AheadTx(At(s, txs, k, p, height, keys), At(t, txs, k, p, height, keys), y, |s.tree.leaves|, txs[k], p, height,
            keys);
  }

  /** At each transaction, with and without the residue, the same reveals are ours. */
  lemma SameRecognised(
      s: Store, t: Store, y: set<Hash>, txs: seq<TxReply>, k: nat, nf: Hash, p: ValuePool, height: nat, keys: Keys)
    requires Sound(s, txs, p, height, keys) && Residue(s, t, y, txs, p, height, keys) && k < |txs|
    requires nf in RevealedBy(txs[k], p, height, keys)
    ensures Recognises(At(s, txs, k, p, height, keys), nf, keys.nullifier)
         == Recognises(At(t, txs, k, p, height, keys), nf, keys.nullifier)
  {
    var key := keys.nullifier;
    var a, b := At(s, txs, k, p, height, keys), At(t, txs, k, p, height, keys);
    AheadAt(s, t, y, txs, k, p, height, keys);
    AheadKnown(a, b, y, |s.tree.leaves|, key);
    RecognisesIs(a, nf, key);
    RecognisesIs(b, nf, key);
    if nf in y {
      SpentWasKnown(s, txs, k, |txs|, nf, p, height, keys);
    }
  }

  lemma RevealedMember(actions: seq<ScannedAction>, i: nat, p: ValuePool)
    requires i < |actions| && actions[i].pool == p
    ensures actions[i].nullifier in Revealed(actions, p)
    decreases |actions|
  {
    if i < |actions| - 1 {
      RevealedMember(actions[..|actions| - 1], i, p);
    }
  }

  lemma SameSpendsKnown(
      s: Store, t: Store, y: set<Hash>, txs: seq<TxReply>, k: nat, p: ValuePool, height: nat, keys: Keys)
    requires Sound(s, txs, p, height, keys) && Residue(s, t, y, txs, p, height, keys) && k < |txs|
    ensures var actions := ActionsOf(txs[k], keys, height);
            SpendsKnown(At(s, txs, k, p, height, keys), actions, p, keys.nullifier)
            == SpendsKnown(At(t, txs, k, p, height, keys), actions, p, keys.nullifier)
  {
    var actions := ActionsOf(txs[k], keys, height);
    forall i | 0 <= i < |actions| && actions[i].pool == p
      ensures Recognises(At(s, txs, k, p, height, keys), actions[i].nullifier, keys.nullifier)
           == Recognises(At(t, txs, k, p, height, keys), actions[i].nullifier, keys.nullifier)
    {
      RevealedMember(actions, i, p);
      SameRecognised(s, t, y, txs, k, actions[i].nullifier, p, height, keys);
    }
  }

  /** After the whole block nothing of the residue is left. */
  lemma ResidueEnds(s: Store, t: Store, y: set<Hash>, txs: seq<TxReply>, p: ValuePool, height: nat, keys: Keys)
    requires Sound(s, txs, p, height, keys) && Residue(s, t, y, txs, p, height, keys)
    ensures At(t, txs, |txs|, p, height, keys) == At(s, txs, |txs|, p, height, keys)
  {
    var n := |txs|;
    var key := keys.nullifier;
    AheadAt(s, t, y, txs, n, p, height, keys);
    CleanAt(s, txs, n, p, height, keys);
    NothingKept(BeginSpec(s, height), At(s, txs, n, p, height, keys), y, |s.tree.leaves|, key);
  }

  lemma NothingKept(s0: Store, s: Store, y: set<Hash>, c: nat, key: NullifierOf)
    requires y <= s.spent && Below(s.held, c) == Minus(s0.held, s.spent, key)
    requires s.inFlight == Minus(s0.inFlight, s.spent, key)
    ensures KeepOld(s.held, y, c, key) == s.held && Minus(s.inFlight, y, key) == s.inFlight && s.spent + y == s.spent
  {
    forall p | p in s.held && p < c ensures key(s.held[p].note) !in y {
      assert p in Below(s.held, c);
    }
  }
}
