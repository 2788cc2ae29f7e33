/** What a fed block leaves in a store, told from the block (src/shielded.rs:1083-1147,
    src/notes.rs:192-220, 315-342). */
module Arrivals {
  import opened Prelude
  import opened Notes
  import W = Watcher
  import opened Shielded
  import opened Scanner
  import opened FeedRuns

  // ------------------------------------------------------------ what a block brings

  /** A leaf of the pool's tree, with the note it is of when that is ours. */
  datatype Arrival = Arrival(cmx: Hash, note: Option<Note>, txid: Hash)

  function ArrivalOf(a: RawAction, txid: Hash): Arrival {
    Arrival(a.cmx, if a.decrypted.Some? then Some(a.decrypted.value.0) else None, txid)
  }

  function ArrivalsOf(raw: seq<RawAction>, p: ValuePool, txid: Hash): seq<Arrival> {
    if raw == [] then [] else
      var a := raw[|raw| - 1];
      ArrivalsOf(raw[..|raw| - 1], p, txid) + if a.pool == p then [ArrivalOf(a, txid)] else []
  }

  function TxArrivals(t: TxReply, p: ValuePool): seq<Arrival> {
    if t.Raw? && |t.actions| <= 0xFFFF_FFFF then ArrivalsOf(t.actions, p, t.txid) else []
  }

  function BlockArrivals(txs: seq<TxReply>, p: ValuePool): seq<Arrival> {
    if txs == [] then [] else BlockArrivals(txs[..|txs| - 1], p) + TxArrivals(txs[|txs| - 1], p)
  }

  /** The nullifiers a block shows in a pool. */
  ghost function TxShown(t: TxReply, p: ValuePool): set<Hash> {
    if t.Raw? then set i | 0 <= i < |t.actions| && t.actions[i].pool == p :: t.actions[i].nullifier else {}
  }

  ghost function BlockShown(txs: seq<TxReply>, p: ValuePool): set<Hash> {
    if txs == [] then {} else BlockShown(txs[..|txs| - 1], p) + TxShown(txs[|txs| - 1], p)
  }

  // ------------------------------------------------------------ what it leaves

  /** The note of an arrival, filed under its place with its block and transaction. */
  function Filed(arr: seq<Arrival>, j: nat, at: nat, height: nat): HeldNote
    requires j < |arr| && arr[j].note.Some?
  {
    HeldNote(arr[j].note.value, at, height, arr[j].txid)
  }

  /** Every leaf in its place, as far as the tree takes them. */
  ghost predicate LeavesStand(now: Tree, before: Tree, arr: seq<Arrival>) {
    && |before.leaves| <= |now.leaves|
    && now.leaves[..|before.leaves|] == before.leaves
    && |now.leaves| == (if |before.leaves| + |arr| <= 0x1_0000_0000 then |before.leaves| + |arr| else 0x1_0000_0000)
    && forall q :: |before.leaves| <= q < |now.leaves| ==> now.leaves[q] == arr[q - |before.leaves|].cmx
  }

  /** A note held is one held before or one that arrived, in its place. */
  ghost predicate HeldFrom(now: Store, s: Store, arr: seq<Arrival>, height: nat) {
    var base := |s.tree.leaves|;
    forall q :: q in now.held ==>
      if q < base then q in s.held && now.held[q] == s.held[q]
      else q - base < |arr| && arr[q - base].note.Some? && now.held[q] == Filed(arr, q - base, q, height)
  }

  /** What was held or arrived is held, unless its nullifier has been seen spent. */
  ghost predicate StillHeld(now: Store, s: Store, arr: seq<Arrival>, height: nat, key: NullifierOf) {
    var base := |s.tree.leaves|;
    && (forall q :: q in s.held ==> (q in now.held && now.held[q] == s.held[q]) || key(s.held[q].note) in now.spent)
    && (forall j :: 0 <= j < |arr| && base + j < 0x1_0000_0000 && arr[j].note.Some? ==>
          || (base + j in now.held && now.held[base + j] == Filed(arr, j, base + j, height))
          || key(arr[j].note.value) in now.spent)
  }

  /** Notes in flight go only when seen spent, and none is added. */
  ghost predicate FlightFrom(now: Store, s: Store, key: NullifierOf) {
    && (forall q :: q in now.inFlight ==> q in s.inFlight && now.inFlight[q] == s.inFlight[q])
    && (forall q :: q in s.inFlight ==> q in now.inFlight || key(s.inFlight[q].note) in now.spent)
  }

  ghost predicate Stands(
      now: Store, s: Store, arr: seq<Arrival>, shown: set<Hash>, height: nat, key: NullifierOf)
  {
    && Valid(now) && LeavesStand(now.tree, s.tree, arr)
    && HeldFrom(now, s, arr, height) && StillHeld(now, s, arr, height, key) && FlightFrom(now, s, key)
    && s.spent <= now.spent <= s.spent + shown
  }

  // ------------------------------------------------------------ step by step

  /** A nullifier shown takes at most the note it is of, and is then known spent. */
  ghost predicate Takes(now: Store, next: Store, nf: Hash, key: NullifierOf) {
    && next.tree == now.tree && now.spent <= next.spent <= now.spent + {nf}
    && (forall q :: q in next.held ==> q in now.held && next.held[q] == now.held[q])
    && (forall q :: q in now.held ==> q in next.held || key(now.held[q].note) in next.spent)
    && (forall q :: q in next.inFlight ==> q in now.inFlight && next.inFlight[q] == now.inFlight[q])
    && (forall q :: q in now.inFlight ==> q in next.inFlight || key(now.inFlight[q].note) in next.spent)
  }

  lemma NullifierTakes(now: Store, nf: Hash, key: NullifierOf)
    requires Keyed(now.held) && Keyed(now.inFlight)
    ensures Takes(now, NullifierSpec(now, nf, key).0, nf, key)
  {
  }

  lemma HeldStillFrom(
      now: Store, next: Store, s: Store, arr: seq<Arrival>, nf: Hash, height: nat, key: NullifierOf)
    requires HeldFrom(now, s, arr, height) && Takes(now, next, nf, key)
    ensures HeldFrom(next, s, arr, height)
  {
  }

  lemma FlightStillFrom(now: Store, next: Store, s: Store, nf: Hash, key: NullifierOf)
    requires FlightFrom(now, s, key) && Takes(now, next, nf, key)
    ensures FlightFrom(next, s, key)
  {
  }

  lemma HeldOrSpent(
      now: Store, next: Store, s: Store, arr: seq<Arrival>, nf: Hash, height: nat, key: NullifierOf)
    requires StillHeld(now, s, arr, height, key) && Takes(now, next, nf, key)
    ensures StillHeld(next, s, arr, height, key)
  {
    var base := |s.tree.leaves|;
    forall j | 0 <= j < |arr| && base + j < 0x1_0000_0000 && arr[j].note.Some?
      ensures (base + j in next.held && next.held[base + j] == Filed(arr, j, base + j, height))
           || key(arr[j].note.value) in next.spent
    {
      var q := base + j;
      if key(arr[j].note.value) !in next.spent {
        assert q in now.held && now.held[q] == Filed(arr, j, base + j, height);
      }
    }
  }

  lemma SpendStands(
      now: Store, s: Store, arr: seq<Arrival>, shown: set<Hash>, nf: Hash, height: nat, key: NullifierOf)
    requires Stands(now, s, arr, shown, height, key) && nf in shown
    ensures Stands(NullifierSpec(now, nf, key).0, s, arr, shown, height, key)
  {
    var next := NullifierSpec(now, nf, key).0;
    NullifierKeepsValid(now, nf, key);
    NullifierTakes(now, nf, key);
    HeldStillFrom(now, next, s, arr, nf, height, key);
    HeldOrSpent(now, next, s, arr, nf, height, key);
    FlightStillFrom(now, next, s, nf, key);
  }

  lemma {:induction false} SpendsStand(
      now: Store, s: Store, arr: seq<Arrival>, shown: set<Hash>, actions: seq<ScannedAction>, p: ValuePool, height: nat,
      key: NullifierOf)
    requires Stands(now, s, arr, shown, height, key)
    requires forall i :: 0 <= i < |actions| && actions[i].pool == p ==> actions[i].nullifier in shown
    ensures Stands(SpendPool(now, actions, p, key), s, arr, shown, height, key)
  {
    if actions != [] {
      var n := |actions| - 1;
      SpendsStand(now, s, arr, shown, actions[..n], p, height, key);
      if actions[n].pool == p {
        SpendStands(SpendPool(now, actions[..n], p, key), s, arr, shown, actions[n].nullifier, height, key);
      }
    }
  }

  lemma MoreShown(
      now: Store, s: Store, arr: seq<Arrival>, shown: set<Hash>, more: set<Hash>, height: nat, key: NullifierOf)
    requires Stands(now, s, arr, shown, height, key) && shown <= more
    ensures Stands(now, s, arr, more, height, key)
  {
  }

  /** The arrival a scanned action is. */
  function Arriving(a: ScannedAction, txid: Hash): Arrival {
    Arrival(a.cmx, a.ours, txid)
  }

  /** An action appended takes the next place, if there is one, its note filed there. */
  ghost predicate Adds(now: Store, next: Store, x: Arrival, height: nat) {
    var at := |now.tree.leaves|;
    && next.spent == now.spent && next.inFlight == now.inFlight
    && if at < 0x1_0000_0000 then
         && next.tree.leaves == now.tree.leaves + [x.cmx]
         && next.held == if x.note.Some? then now.held[at := HeldNote(x.note.value, at, height, x.txid)] else now.held
       else next == now
  }

  lemma AppendAdds(now: Store, a: ScannedAction, height: nat, txid: Hash)
    requires Valid(now)
    ensures Adds(now, AppendOne(now, a, height, txid), Arriving(a, txid), height)
    ensures Valid(AppendOne(now, a, height, txid))
  {
    if a.ours.Some? {
      AppendKeepsValid(now, a.cmx, true, a.ours.value, height, txid);
    } else {
      AppendKeepsValid(now, a.cmx, false, Note(0, 0, 0, 0, V2), height, txid);
    }
  }

  lemma LeavesAdd(now: Store, next: Store, s: Store, arr: seq<Arrival>, x: Arrival, height: nat)
    requires LeavesStand(now.tree, s.tree, arr) && Adds(now, next, x, height) && |now.tree.leaves| <= CAPACITY
    ensures LeavesStand(next.tree, s.tree, arr + [x])
  {
  }

  lemma HeldAdd(now: Store, next: Store, s: Store, arr: seq<Arrival>, x: Arrival, height: nat)
    requires LeavesStand(now.tree, s.tree, arr) && HeldFrom(now, s, arr, height) && Adds(now, next, x, height)
    ensures HeldFrom(next, s, arr + [x], height)
  {
    var base, all := |s.tree.leaves|, arr + [x];
    assert forall j :: 0 <= j < |arr| ==> all[j] == arr[j];
    assert |now.tree.leaves| < 0x1_0000_0000 ==> |now.tree.leaves| == base + |arr|;
  }

  lemma StillAdd(
      now: Store, next: Store, s: Store, arr: seq<Arrival>, x: Arrival, height: nat, key: NullifierOf)
    requires Valid(now) && LeavesStand(now.tree, s.tree, arr) && StillHeld(now, s, arr, height, key)
    requires Adds(now, next, x, height)
    ensures StillHeld(next, s, arr + [x], height, key)
  {
    var base, all := |s.tree.leaves|, arr + [x];
    forall j | 0 <= j < |all| && base + j < 0x1_0000_0000 && all[j].note.Some?
      ensures (base + j in next.held && next.held[base + j] == Filed(all, j, base + j, height))
           || key(all[j].note.value) in next.spent
    {
      if j < |arr| {
        assert all[j] == arr[j];
        assert base + j < |now.tree.leaves|;
      } else {
        assert |now.tree.leaves| == base + |arr|;
      }
    }
    forall q | q in s.held
      ensures (q in next.held && next.held[q] == s.held[q]) || key(s.held[q].note) in next.spent
    {
      if key(s.held[q].note) !in next.spent {
        assert q in now.held && q in now.tree.marked && q < |now.tree.leaves|;
      }
    }
  }

  lemma AppendStands(
      now: Store, s: Store, arr: seq<Arrival>, shown: set<Hash>, a: ScannedAction, height: nat, txid: Hash,
      key: NullifierOf)
    requires Stands(now, s, arr, shown, height, key)
    ensures Stands(AppendOne(now, a, height, txid), s, arr + [Arriving(a, txid)], shown, height, key)
  {
    var next, x := AppendOne(now, a, height, txid), Arriving(a, txid);
    AppendAdds(now, a, height, txid);
    LeavesAdd(now, next, s, arr, x, height);
    HeldAdd(now, next, s, arr, x, height);
    StillAdd(now, next, s, arr, x, height, key);
  }

  lemma {:induction false} AppendsStand(
      now: Store, s: Store, arr: seq<Arrival>, shown: set<Hash>, actions: seq<ScannedAction>, raw: seq<RawAction>,
      p: ValuePool, height: nat, txid: Hash, key: NullifierOf)
    requires Stands(now, s, arr, shown, height, key) && SameAsRaw(actions, raw)
    ensures Stands(AppendPool(now, actions, p, height, txid), s, arr + ArrivalsOf(raw, p, txid), shown, height, key)
  {
    if actions == [] {
      assert arr + ArrivalsOf(raw, p, txid) == arr;
    } else {
      var n := |actions| - 1;
      AppendsStand(now, s, arr, shown, actions[..n], raw[..n], p, height, txid, key);
      var before := ArrivalsOf(raw[..n], p, txid);
      if actions[n].pool == p {
        AppendStands(AppendPool(now, actions[..n], p, height, txid), s, arr + before, shown, actions[n], height, txid,
                     key);
        assert arr + before + [ArrivalOf(raw[n], txid)] == arr + (before + [ArrivalOf(raw[n], txid)]);
      } else {
        assert arr + (before + []) == arr + before;
      }
    }
  }

  /** Actions scanned keep what arrives of them. */
  ghost predicate SameAsRaw(actions: seq<ScannedAction>, raw: seq<RawAction>) {
    && |actions| == |raw|
    && forall i :: 0 <= i < |raw| ==>
         && actions[i].pool == raw[i].pool && actions[i].cmx == raw[i].cmx && actions[i].nullifier == raw[i].nullifier
         && actions[i].ours == (if raw[i].decrypted.Some? then Some(raw[i].decrypted.value.0) else None)
  }

  lemma ScannedAsRaw(t: TxReply, keys: Keys, height: nat)
    requires t.Raw? && |t.actions| <= 0xFFFF_FFFF
    ensures SameAsRaw(ActionsOf(t, keys, height), t.actions)
  {
    var actions := ActionsOf(t, keys, height);
    LenientReads(t.actions, keys, t.txid, height);
    ScannedCount(t.actions, keys, t.txid, height, map[], true);
    forall i | 0 <= i < |t.actions|
      ensures actions[i].pool == t.actions[i].pool && actions[i].cmx == t.actions[i].cmx
           && actions[i].nullifier == t.actions[i].nullifier
           && actions[i].ours == (if t.actions[i].decrypted.Some? then Some(t.actions[i].decrypted.value.0) else None)
    {
      ActionsInOrder(t.actions, i, keys, t.txid, height, map[], true);
      TakenAsRaw(t.actions[i], keys, t.txid, height, i);
    }
  }

  lemma TakenAsRaw(a: RawAction, keys: Keys, txid: Hash, height: nat, n: nat)
    ensures var t := TakeSpec(a, keys, txid, height, n, map[], true);
            && t.Took? && t.action.pool == a.pool && t.action.cmx == a.cmx && t.action.nullifier == a.nullifier
            && t.action.ours == if a.decrypted.Some? then Some(a.decrypted.value.0) else None
  {
  }

  lemma TxStands(
      now: Store, s: Store, arr: seq<Arrival>, shown: set<Hash>, t: TxReply, p: ValuePool, height: nat, keys: Keys)
    requires Stands(now, s, arr, shown, height, keys.nullifier)
    ensures Stands(PoolTx(now, t, p, height, keys), s, arr + TxArrivals(t, p), shown + TxShown(t, p), height,
                   keys.nullifier)
  {
    var actions, more := ActionsOf(t, keys, height), shown + TxShown(t, p);
    MoreShown(now, s, arr, shown, more, height, keys.nullifier);
    if t.Raw? && |t.actions| <= 0xFFFF_FFFF {
      ScannedAsRaw(t, keys, height);
      SpendsStand(now, s, arr, more, actions, p, height, keys.nullifier);
      AppendsStand(SpendPool(now, actions, p, keys.nullifier), s, arr, more, actions, t.actions, p, height, t.txid,
                   keys.nullifier);
    } else {
      NothingRead(t, keys, height);
      assert arr + [] == arr;
    }
  }

  lemma NothingRead(t: TxReply, keys: Keys, height: nat)
    requires t.Raw? ==> |t.actions| > 0xFFFF_FFFF
    ensures ActionsOf(t, keys, height) == []
  {
    if t.Raw? {
      LenientReads(t.actions, keys, t.txid, height);
    }
  }

  lemma {:induction false} TxsStand(
      begun: Store, s: Store, txs: seq<TxReply>, p: ValuePool, height: nat, keys: Keys)
    requires Stands(begun, s, [], {}, height, keys.nullifier)
    ensures Stands(PoolTxs(begun, txs, p, height, keys), s, BlockArrivals(txs, p), BlockShown(txs, p), height,
                   keys.nullifier)
  {
    if txs != [] {
      var n := |txs| - 1;
      TxsStand(begun, s, txs[..n], p, height, keys);
      TxStands(PoolTxs(begun, txs[..n], p, height, keys), s, BlockArrivals(txs[..n], p), BlockShown(txs[..n], p),
               txs[n], p, height, keys);
    }
  }

  lemma BegunStands(s: Store, height: nat, key: NullifierOf)
    requires Valid(s)
    ensures Stands(BeginSpec(s, height), s, [], {}, height, key)
  {
    BeginKeepsValid(s, height);
  }

  /** A block that is fed leaves each store complete to its height, every commitment of
      the pool a leaf in its place, and every note of ours filed there with the block
      and the transaction it came in, unless its nullifier has been seen spent; what
      was held or in flight goes only so, and only nullifiers the block shows are
      newly seen. Nothing else is held. */
  lemma FedBlockStands(ps: Pools, op: Op, p: ValuePool, keys: Keys)
    requires op.Feed? && Landed(ps, op, keys) != [] && Valid(Pick(ps, p))
    ensures var after := Pick(Step(ps, op, keys), p);
            && after.syncedTo == Some(op.height)
            && Stands(after, Pick(ps, p), BlockArrivals(op.reply.txs, p), BlockShown(op.reply.txs, p), op.height,
                      keys.nullifier)
  {
    var s, txs := Pick(ps, p), op.reply.txs;
    LandedIs(ps, op, p, keys);
    assert txs[..|txs|] == txs;
    BegunStands(s, op.height, keys.nullifier);
    TxsStand(BeginSpec(s, op.height), s, txs, p, op.height, keys);
    StandsFinished(PoolTxs(BeginSpec(s, op.height), txs, p, op.height, keys), s, BlockArrivals(txs, p),
                   BlockShown(txs, p), op.height, keys.nullifier);
  }

  lemma StandsFinished(
      now: Store, s: Store, arr: seq<Arrival>, shown: set<Hash>, height: nat, key: NullifierOf)
    requires Stands(now, s, arr, shown, height, key)
    ensures Stands(FinishSpec(now, height), s, arr, shown, height, key)
  {
  }
}
