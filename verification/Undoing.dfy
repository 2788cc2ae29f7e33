/** What a failed block leaves behind, to the last field (src/shielded.rs:1083-1155,
    src/notes.rs:229-247, 315-342). */
module Undoing {
  import opened Prelude
  import opened Notes
  import W = Watcher
  import opened Shielded
  import opened Scanner
  import opened Retry
  import opened Transparency
  import opened FeedRuns

  // ------------------------------------------------------------ one pool

  /** A pool after an attempt that got as far as the spends of its n-th transaction. */
  function AfterReaching(s: Store, txs: seq<TxReply>, n: nat, p: ValuePool, height: nat, keys: Keys): Store
    requires n <= |txs|
  {
    if n == 0 then Undone(s, txs, 0, [], p, height, keys)
    else Undone(s, txs, n - 1, ActionsOf(txs[n - 1], keys, height), p, height, keys)
  }

  /** The pool without the notes of `spent`, those known spent too, and with its
      oldest checkpoint gone when there was no room for another. */
  function Left(s: Store, spent: set<Hash>, key: NullifierOf): Store {
    var cs := s.tree.checkpoints;
    s.(held := Minus(s.held, spent, key), inFlight := Minus(s.inFlight, spent, key), spent := spent,
       tree := s.tree.(checkpoints := if |cs| >= CHECKPOINT_DEPTH then cs[1..] else cs))
  }

  lemma CheckpointsLeft(t0: Tree, t: Tree, id: nat)
    requires TakesCheckpoint(t0, id) && Grown(TreeCheckpoint(t0, id), t, |t0.leaves|)
    ensures TreeRewind(t).Some?
    ensures var cs := t0.checkpoints;
            TreeRewind(t).value.checkpoints == if |cs| >= CHECKPOINT_DEPTH then cs[1..] else cs
  {
    var cs := t0.checkpoints;
    var all := cs + [Checkpoint(id, |t0.leaves|)];
    assert all[..|cs|] == cs;
    if |all| > CHECKPOINT_DEPTH {
      assert all[1..][..|cs| - 1] == cs[1..];
    }
  }

  /** Undoing what a clean pass has come to. */
  lemma CleanUndone(s: Store, a: Store, taken: set<Hash>, height: nat, key: NullifierOf)
    requires Valid(s) && TakesCheckpoint(s.tree, CheckpointId(height))
    requires Clean(BeginSpec(s, height), a, |s.tree.leaves|, taken, key)
    ensures RewindSpec(a).0 == Left(s, a.spent, key)
  {
    TreeRewound(s.tree, a.tree, CheckpointId(height));
    CheckpointsLeft(s.tree, a.tree, CheckpointId(height));
    RewindKeepsBelow(a, |s.tree.leaves|);
  }

  /** What an attempt leaves of a pool is fixed by the nullifiers it has shown. */
  lemma PoolLeft(s: Store, txs: seq<TxReply>, n: nat, p: ValuePool, height: nat, keys: Keys)
    requires Sound(s, txs, p, height, keys) && n <= |txs|
    ensures AfterReaching(s, txs, n, p, height, keys) == Left(s, At(s, txs, n, p, height, keys).spent, keys.nullifier)
  {
    var taken := Known(s, keys.nullifier) + s.spent;
    if n == 0 {
      CleanAt(s, txs, 0, p, height, keys);
      CleanUndone(s, At(s, txs, 0, p, height, keys), taken + CreatedBy(txs[..0], p, height, keys), height,
                  keys.nullifier);
    } else {
      var k := n - 1;
      var actions := ActionsOf(txs[k], keys, height);
      var created := CreatedBy(txs[..k], p, height, keys);
      CleanAt(s, txs, k, p, height, keys);
      CleanSpend(s, At(s, txs, k, p, height, keys), taken + created, actions, p, height, keys.nullifier);
      SpentStep(s, txs, k, p, height, keys);
      CleanUndone(s, SpendPool(At(s, txs, k, p, height, keys), actions, p, keys.nullifier), taken + created, height,
                  keys.nullifier);
    }
  }

  /** Nothing the store knew is revealed by the k-th transaction when it is reached. */
  ghost predicate Quiet(s: Store, txs: seq<TxReply>, k: nat, p: ValuePool, height: nat, keys: Keys)
    requires k < |txs|
  {
    RevealedBy(txs[k], p, height, keys) !! Known(At(s, txs, k, p, height, keys), keys.nullifier)
  }

  lemma QuietStep(s: Store, txs: seq<TxReply>, k: nat, n: nat, p: ValuePool, height: nat, keys: Keys)
    requires Sound(s, txs, p, height, keys) && k < |txs| && n == k + 1
    ensures At(s, txs, k, p, height, keys).spent <= At(s, txs, n, p, height, keys).spent
    ensures At(s, txs, k, p, height, keys).spent == At(s, txs, n, p, height, keys).spent
       <==> Quiet(s, txs, k, p, height, keys)
  {
    SpentStep(s, txs, k, p, height, keys);
    CleanAt(s, txs, k, p, height, keys);
    SameUnion(At(s, txs, k, p, height, keys).spent, RevealedBy(txs[k], p, height, keys),
              Known(At(s, txs, k, p, height, keys), keys.nullifier));
  }

  lemma SameUnion(spent: set<Hash>, revealed: set<Hash>, known: set<Hash>)
    requires known !! spent
    ensures spent + revealed * known == spent <==> revealed !! known
  {
    if x :| x in revealed && x in known {
      assert x in spent + revealed * known && x !in spent;
    }
  }

  lemma {:induction false} SpentSameExactlyWhenQuiet(
      s: Store, txs: seq<TxReply>, n: nat, p: ValuePool, height: nat, keys: Keys)
    requires Sound(s, txs, p, height, keys) && n <= |txs|
    ensures s.spent <= At(s, txs, n, p, height, keys).spent
    ensures At(s, txs, n, p, height, keys).spent == s.spent
       <==> AllQuiet(s, txs, n, p, height, keys)
  {
    if n == 0 {
      assert txs[..0] == [];
    } else {
      var k := n - 1;
      SpentSameExactlyWhenQuiet(s, txs, k, p, height, keys);
      QuietStep(s, txs, k, n, p, height, keys);
      AllQuietNext(s, txs, k, n, p, height, keys);
      Sandwich(s.spent, At(s, txs, k, p, height, keys).spent, At(s, txs, n, p, height, keys).spent);
    }
  }

  ghost predicate AllQuiet(s: Store, txs: seq<TxReply>, n: nat, p: ValuePool, height: nat, keys: Keys)
    requires n <= |txs|
  {
    forall k :: 0 <= k < n ==> Quiet(s, txs, k, p, height, keys)
  }

  lemma AllQuietNext(s: Store, txs: seq<TxReply>, k: nat, n: nat, p: ValuePool, height: nat, keys: Keys)
    requires k < |txs| && n == k + 1
    ensures AllQuiet(s, txs, n, p, height, keys)
       <==> AllQuiet(s, txs, k, p, height, keys) && Quiet(s, txs, k, p, height, keys)
  {
  }

  lemma Sandwich(a: set<Hash>, b: set<Hash>, c: set<Hash>)
    requires a <= b <= c
    ensures a == c <==> a == b && b == c
  {
  }

  lemma LeftIsSame(s: Store, spent: set<Hash>, key: NullifierOf)
    requires Valid(s) && Known(s, key) !! s.spent
    ensures Left(s, spent, key) == s <==> spent == s.spent && |s.tree.checkpoints| < CHECKPOINT_DEPTH
  {
    if spent == s.spent {
      NothingMinus(s.held, spent, key);
      NothingMinus(s.inFlight, spent, key);
    }
  }

  lemma NothingMinus(m: map<nat, HeldNote>, spent: set<Hash>, key: NullifierOf)
    requires NfsOf(m, key) !! spent
    ensures Minus(m, spent, key) == m
  {
    assert forall q :: q in m ==> key(m[q].note) in NfsOf(m, key);
  }

  /** An attempt that reached `n` transactions is undone without a trace in a pool. */
  ghost predicate Traceless(s: Store, txs: seq<TxReply>, n: nat, p: ValuePool, height: nat, keys: Keys)
    requires n <= |txs|
  {
    && |s.tree.checkpoints| < CHECKPOINT_DEPTH
    && AllQuiet(s, txs, n, p, height, keys)
  }

  lemma PoolUndoneExactlyWhen(s: Store, txs: seq<TxReply>, n: nat, p: ValuePool, height: nat, keys: Keys)
    requires Sound(s, txs, p, height, keys) && n <= |txs|
    ensures AfterReaching(s, txs, n, p, height, keys) == s <==> Traceless(s, txs, n, p, height, keys)
  {
    PoolLeft(s, txs, n, p, height, keys);
    SpentSameExactlyWhenQuiet(s, txs, n, p, height, keys);
    LeftIsSame(s, At(s, txs, n, p, height, keys).spent, keys.nullifier);
  }

  // ------------------------------------------------------------ a failing feeding

  /** How many transactions an attempt reached: up to the first at which the body
      stops, that one included. */
  function Reached(
      begun: Pools, txs: seq<TxReply>, height: nat, keys: Keys, attributions: map<Hash, W.AccountId>): (n: nat)
    ensures n <= |txs|
  {
    if txs == [] then 0
    else if BodySpec(begun, txs[..|txs| - 1], height, keys, attributions).1.Err? then
      Reached(begun, txs[..|txs| - 1], height, keys, attributions)
    else |txs|
  }

  /** The body stops at the n-th transaction, and not before. */
  ghost predicate StopsAt(
      begun: Pools, txs: seq<TxReply>, n: nat, after: Pools, height: nat, keys: Keys,
      attributions: map<Hash, W.AccountId>)
  {
    && 0 < n <= |txs| && BodySpec(begun, txs[..n - 1], height, keys, attributions).1.Ok?
    && after == SpendBoth(BodySpec(begun, txs[..n - 1], height, keys, attributions).0,
                          ActionsOf(txs[n - 1], keys, height), keys.nullifier)
  }

  lemma StopsSooner(
      begun: Pools, front: seq<TxReply>, txs: seq<TxReply>, n: nat, after: Pools, height: nat, keys: Keys,
      attributions: map<Hash, W.AccountId>)
    requires front <= txs && StopsAt(begun, front, n, after, height, keys, attributions)
    ensures StopsAt(begun, txs, n, after, height, keys, attributions)
  {
    assert front[..n - 1] == txs[..n - 1];
  }

  lemma {:induction false} ReachedIs(
      begun: Pools, txs: seq<TxReply>, height: nat, keys: Keys, attributions: map<Hash, W.AccountId>)
    requires BodySpec(begun, txs, height, keys, attributions).1.Err?
    ensures StopsAt(begun, txs, Reached(begun, txs, height, keys, attributions),
                    BodySpec(begun, txs, height, keys, attributions).0, height, keys, attributions)
  {
    assert txs[..|txs|] == txs;
    LastFailure(begun, txs, |txs|, height, keys, attributions);
    var front := txs[..|txs| - 1];
    var (after, r) := BodySpec(begun, front, height, keys, attributions);
    if r.Err? {
      ReachedIs(begun, front, height, keys, attributions);
      StopsSooner(begun, front, txs, Reached(begun, front, height, keys, attributions), after, height, keys,
                  attributions);
    }
  }

  /** How far the node's answer takes an attempt at a block. */
  function ReachedBy(
      ps: Pools, reply: BlockReply, height: nat, keys: Keys, attributions: map<Hash, W.AccountId>): (n: nat)
    ensures n <= |TxsOf(reply)|
  {
    Reached(BeginBoth(ps, height), TxsOf(reply), height, keys, attributions)
  }

  lemma StoppedIs(
      ps: Pools, txs: seq<TxReply>, n: nat, m: nat, after: Pools, height: nat, keys: Keys,
      attributions: map<Hash, W.AccountId>)
    requires n == m + 1 && StopsAt(BeginBoth(ps, height), txs, n, after, height, keys, attributions)
    ensures RewindBoth(after) == Pools(AfterReaching(ps.orchard, txs, n, Orchard, height, keys),
                                       AfterReaching(ps.ironwood, txs, n, Ironwood, height, keys))
  {
    BodyShape(ps, txs, m, height, keys, attributions);
  }

  lemma FailedFeedIs(
      ps: Pools, reply: BlockReply, height: nat, keys: Keys, attributions: map<Hash, W.AccountId>)
    requires FeedSpec(ps, reply, height, keys, attributions).1.Err?
    ensures var txs, n := TxsOf(reply), ReachedBy(ps, reply, height, keys, attributions);
            FeedSpec(ps, reply, height, keys, attributions).0
              == Pools(AfterReaching(ps.orchard, txs, n, Orchard, height, keys),
                       AfterReaching(ps.ironwood, txs, n, Ironwood, height, keys))
  {
    var txs := TxsOf(reply);
    if reply.NoTxids? {
      assert txs[..0] == [];
    } else {
      var begun := BeginBoth(ps, height);
      var n := Reached(begun, txs, height, keys, attributions);
      var after := BodySpec(begun, txs, height, keys, attributions).0;
      ReachedIs(begun, txs, height, keys, attributions);
      StoppedIs(ps, txs, n, n - 1, after, height, keys, attributions);
    }
  }

  /** To the last field: after a failure each pool is what it was without the notes
      whose nullifiers the transactions reached have revealed, those known spent,
      and short of its oldest checkpoint when it had no room for another. */
  lemma WhatAFailureLeaves(
      ps: Pools, reply: BlockReply, height: nat, keys: Keys, attributions: map<Hash, W.AccountId>)
    requires SoundBoth(ps, TxsOf(reply), height, keys)
    requires FeedSpec(ps, reply, height, keys, attributions).1.Err?
    ensures var txs, n := TxsOf(reply), ReachedBy(ps, reply, height, keys, attributions);
            FeedSpec(ps, reply, height, keys, attributions).0
              == Pools(Left(ps.orchard, At(ps.orchard, txs, n, Orchard, height, keys).spent, keys.nullifier),
                       Left(ps.ironwood, At(ps.ironwood, txs, n, Ironwood, height, keys).spent, keys.nullifier))
  {
    var txs, n := TxsOf(reply), ReachedBy(ps, reply, height, keys, attributions);
    FailedFeedIs(ps, reply, height, keys, attributions);
    PoolLeft(ps.orchard, txs, n, Orchard, height, keys);
    PoolLeft(ps.ironwood, txs, n, Ironwood, height, keys);
  }

  /** Exactly when a failed block is undone: no transaction reached reveals a
      nullifier its store knew, and both checkpoint stacks had room. */
  lemma UndoneExactlyWhenTraceless(
      ps: Pools, reply: BlockReply, height: nat, keys: Keys, attributions: map<Hash, W.AccountId>)
    requires SoundBoth(ps, TxsOf(reply), height, keys)
    requires FeedSpec(ps, reply, height, keys, attributions).1.Err?
    ensures var txs, n := TxsOf(reply), ReachedBy(ps, reply, height, keys, attributions);
            FeedSpec(ps, reply, height, keys, attributions).0 == ps <==>
              && Traceless(ps.orchard, txs, n, Orchard, height, keys)
              && Traceless(ps.ironwood, txs, n, Ironwood, height, keys)
  {
    var txs, n := TxsOf(reply), ReachedBy(ps, reply, height, keys, attributions);
    FailedFeedIs(ps, reply, height, keys, attributions);
    PoolUndoneExactlyWhen(ps.orchard, txs, n, Orchard, height, keys);
    PoolUndoneExactlyWhen(ps.ironwood, txs, n, Ironwood, height, keys);
  }

  // ------------------------------------------------------------ what is not undone

  /** A pool at height one that holds one note. */
  function Holding(note: Note): Store {
    Store(Tree([0], {0}, []), map[0 := HeldNote(note, 0, 1, 0)], map[], {}, 1, Some(1))
  }

  /** A transaction that reveals a nullifier in the Orchard pool, and one the node
      does not answer for. */
  function RevealThenFail(nf: Hash): seq<TxReply> {
    [Raw(0, [RawAction(Orchard, 0, nf, None)]), Failed]
  }

  lemma OneForeign(a: RawAction, keys: Keys)
    requires a.decrypted.None?
    ensures ActionsOf(Raw(0, [a]), keys, 2) == [Plain(a)]
  {
    var raw := [a];
    assert raw[..|raw| - 1] == [];
    assert ScanSpec([], keys, 0, 2, map[], true) == Ok(Scanned([], [], [], []));
    assert TakeSpec(a, keys, 0, 2, 0, map[], true) == Took(Plain(a), None, None, None);
    assert ScanSpec(raw, keys, 0, 2, map[], true)
        == Ok(Added(Scanned([], [], [], []), TakeSpec(a, keys, 0, 2, 0, map[], true)));
  }

  lemma OneForeignDoes(a: RawAction, p: ValuePool, taken: set<Hash>, key: NullifierOf)
    requires a.decrypted.None?
    ensures Revealed([Plain(a)], p) == (if a.pool == p then {a.nullifier} else {})
    ensures Created([Plain(a)], p, key) == {} && NewNotes(taken, [Plain(a)], p, key)
  {
    var actions := [Plain(a)];
    assert actions[..|actions| - 1] == [];
    assert Revealed([], p) == {} && Created([], p, key) == {} && NewNotes(taken, [], p, key);
  }

  lemma RevealedThere(nf: Hash, p: ValuePool, keys: Keys)
    ensures var txs := RevealThenFail(nf);
            && RevealedBy(txs[0], p, 2, keys) == (if p == Orchard then {nf} else {})
            && RevealedBy(txs[1], p, 2, keys) == {}
  {
    var a := RawAction(Orchard, 0, nf, None);
    OneForeign(a, keys);
    OneForeignDoes(a, p, {}, keys.nullifier);
    assert ActionsOf(Failed, keys, 2) == [];
  }

  lemma AllNewThere(nf: Hash, taken: set<Hash>, p: ValuePool, keys: Keys)
    ensures AllNew(taken, RevealThenFail(nf), p, 2, keys)
  {
    var a := RawAction(Orchard, 0, nf, None);
    var txs := RevealThenFail(nf);
    assert txs[..1] == [txs[0]] && txs[..1][..0] == [];
    OneForeign(a, keys);
    assert CreatedBy([], p, 2, keys) == {};
    OneForeignDoes(a, p, taken + {}, keys.nullifier);
    assert AllNew(taken, [], p, 2, keys);
    assert AllNew(taken, txs[..1], p, 2, keys);
    assert ActionsOf(txs[1], keys, 2) == [];
    assert NewNotes(taken + CreatedBy(txs[..1], p, 2, keys), [], p, keys.nullifier);
  }

  lemma RevealedOnceThere(nf: Hash, p: ValuePool, keys: Keys)
    ensures RevealedOnce(RevealThenFail(nf), p, 2, keys)
  {
    RevealedThere(nf, p, keys);
  }

  lemma HoldingReady(note: Note, keys: Keys)
    ensures var s := Holding(note);
            && Valid(s) && Unique(s, keys.nullifier) && Known(s, keys.nullifier) == {keys.nullifier(note)}
            && TakesCheckpoint(s.tree, CheckpointId(2))
  {
    assert Holding(note).held[0].note == note;
  }

  lemma HoldingIsSound(note: Note, keys: Keys)
    ensures var nf := keys.nullifier(note);
            && Known(Holding(note), keys.nullifier) == {nf}
            && Sound(Holding(note), RevealThenFail(nf), Orchard, 2, keys)
  {
    HoldingReady(note, keys);
    AllNewThere(keys.nullifier(note), Known(Holding(note), keys.nullifier) + {}, Orchard, keys);
    RevealedOnceThere(keys.nullifier(note), Orchard, keys);
  }

  lemma EmptyIsSound(nf: Hash, keys: Keys)
    ensures Sound(EmptyAt(1), RevealThenFail(nf), Ironwood, 2, keys)
  {
    AllNewThere(nf, Known(EmptyAt(1), keys.nullifier) + EmptyAt(1).spent, Ironwood, keys);
    RevealedOnceThere(nf, Ironwood, keys);
  }

  lemma ThereItFails(ps: Pools, nf: Hash, keys: Keys)
    requires !Done(ps, 2)
    ensures FeedSpec(ps, Txids(RevealThenFail(nf)), 2, keys, map[]).1.Err?
    ensures ReachedBy(ps, Txids(RevealThenFail(nf)), 2, keys, map[]) > 0
  {
    var txs := RevealThenFail(nf);
    assert BodySpec(BeginBoth(ps, 2), txs, 2, keys, map[]).1.Err?;
    ReachedIs(BeginBoth(ps, 2), txs, 2, keys, map[]);
  }

  /** Whatever the note, a block that reveals its nullifier and then is not answered
      for fails, and the note is gone and known spent. */
  lemma FailureForgetsANote(note: Note, keys: Keys)
    ensures var nf, ps := keys.nullifier(note), Pools(Holding(note), EmptyAt(1));
            var (after, r) := FeedSpec(ps, Txids(RevealThenFail(nf)), 2, keys, map[]);
            && SoundBoth(ps, RevealThenFail(nf), 2, keys) && r.Err?
            && 0 in ps.orchard.held && 0 !in after.orchard.held && nf in after.orchard.spent
  {
    var nf, s := keys.nullifier(note), Holding(note);
    var ps, txs := Pools(s, EmptyAt(1)), RevealThenFail(nf);
    HoldingIsSound(note, keys);
    EmptyIsSound(nf, keys);
    ThereItFails(ps, nf, keys);
    WhatAFailureLeaves(ps, Txids(txs), 2, keys, map[]);
    var n := ReachedBy(ps, Txids(txs), 2, keys, map[]);
    RevealedThere(nf, Orchard, keys);
    ShownAtFirst(s, txs, keys);
    SpentGrows(s, txs, 1, n, Orchard, 2, keys);
    assert s.held[0].note == note;
  }

  lemma ShownAtFirst(s: Store, txs: seq<TxReply>, keys: Keys)
    requires Sound(s, txs, Orchard, 2, keys) && txs != []
    ensures RevealedBy(txs[0], Orchard, 2, keys) * Known(s, keys.nullifier) <= At(s, txs, 1, Orchard, 2, keys).spent
  {
    assert txs[..0] == [];
    assert At(s, txs, 0, Orchard, 2, keys) == BeginSpec(s, 2);
    SpentStep(s, txs, 0, Orchard, 2, keys);
  }

  /** An empty pool with as many checkpoints as there is room for. */
  function FullStack(): Store {
    Store(Tree([], {}, seq(CHECKPOINT_DEPTH, (i: nat) => Checkpoint(i, 0))), map[], map[], {}, 0, Some(99))
  }

  /** A block the node does not even list costs a full stack its oldest checkpoint. */
  lemma FailureLosesACheckpoint(keys: Keys)
    ensures var ps := Pools(FullStack(), EmptyAt(99));
            var (after, r) := FeedSpec(ps, NoTxids, 100, keys, map[]);
            && SoundBoth(ps, [], 100, keys) && r.Err?
            && |ps.orchard.tree.checkpoints| == CHECKPOINT_DEPTH
            && after.orchard.tree.checkpoints == ps.orchard.tree.checkpoints[1..]
  {
    var ps := Pools(FullStack(), EmptyAt(99));
    WhatAFailureLeaves(ps, NoTxids, 100, keys, map[]);
  }

  /** Two pools at different heights: nine, its last block one leaf long, and five. */
  function OutOfStep(): Pools {
    Pools(Store(Tree([1, 2], {}, [Checkpoint(9, 1)]), map[], map[], {}, 2, Some(9)), EmptyAt(5))
  }

  /** Asked for block six, which the node does not list, the pool at nine loses the
      leaf of block nine and still says it is complete to nine. */
  lemma FailureTakesBackAFinishedBlock(keys: Keys, commit: CommitmentOf)
    ensures var ps := OutOfStep();
            var (after, r) := FeedSpec(ps, NoTxids, 6, keys, map[]);
            && Sane(ps.orchard, commit) && Sane(ps.ironwood, commit) && r.Err?
            && ps.orchard.tree.leaves == [1, 2] && after.orchard.tree.leaves == [1]
            && after.orchard.syncedTo == ps.orchard.syncedTo == Some(9)
  {
    var s := OutOfStep().orchard;
    assert BeginSpec(s, 6) == s;
    assert s.tree.leaves[..1] == [1];
  }
}
