/** Any number of failed attempts at a block, followed by a success, ends exactly
    where a first-time success ends (src/shielded.rs:1064-1155). */
module Transparency {
  import opened Prelude
  import opened Watcher
  import opened Notes
  import opened Shielded
  import opened Scanner
  import opened Retry

  // ------------------------------------------------------------ rewinding

  lemma TreeRewound(t0: Tree, t: Tree, id: nat)
    requires TakesCheckpoint(t0, id)
    requires Grown(TreeCheckpoint(t0, id), t, |t0.leaves|) && forall p :: p in t0.marked ==> p < |t0.leaves|
    ensures TreeRewind(t).Some?
    ensures TreeRewind(t).value.leaves == t0.leaves && TreeRewind(t).value.marked == t0.marked
    ensures var cs := TreeRewind(t).value.checkpoints;
            cs != [] ==> t0.checkpoints != [] && cs[|cs| - 1] == t0.checkpoints[|t0.checkpoints| - 1]
    ensures |t0.checkpoints| <= CHECKPOINT_DEPTH ==> TreeCheckpoint(TreeRewind(t).value, id) == TreeCheckpoint(t0, id)
  {
    var cs := TreeCheckpoint(t0, id).checkpoints;
    assert cs[|cs| - 1] == Checkpoint(id, |t0.leaves|);
    var back := TreeRewind(t).value;
    assert back.leaves == t0.leaves && back.marked == t0.marked && back.checkpoints == cs[..|cs| - 1];
    CheckpointAgain(t0, back, id);
  }

  /** A checkpoint taken back can be taken again. */
  lemma CheckpointAgain(t0: Tree, back: Tree, id: nat)
    requires TakesCheckpoint(t0, id)
    requires back.leaves == t0.leaves && back.marked == t0.marked
    requires var cs := TreeCheckpoint(t0, id).checkpoints; back.checkpoints == cs[..|cs| - 1]
    ensures var cs := back.checkpoints;
            cs != [] ==> t0.checkpoints != [] && cs[|cs| - 1] == t0.checkpoints[|t0.checkpoints| - 1]
    ensures |t0.checkpoints| <= CHECKPOINT_DEPTH ==> TreeCheckpoint(back, id) == TreeCheckpoint(t0, id)
  {
    assert back.checkpoints + [Checkpoint(id, |t0.leaves|)] == TreeCheckpoint(t0, id).checkpoints;
  }

  /** Rewinding keeps the notes below the checkpoint and no others. */
  lemma RewindKeepsBelow(b: Store, c: nat)
    requires TreeRewind(b.tree).Some? && |TreeRewind(b.tree).value.leaves| == c
    ensures RewindSpec(b).0.held == Below(b.held, c) && RewindSpec(b).0.appended == c
    ensures RewindSpec(b).0.tree == TreeRewind(b.tree).value
  {
  }

  /** Undoing an attempt turns what it spent into residue. */
  lemma RewindAhead(s: Store, a: Store, b: Store, y: set<Hash>, taken: set<Hash>, height: nat, key: NullifierOf)
    requires Valid(s) && TakesCheckpoint(s.tree, CheckpointId(height))
    requires Clean(BeginSpec(s, height), a, |s.tree.leaves|, taken, key)
    requires Ahead(a, b, y, |s.tree.leaves|, key)
    ensures Ahead(BeginSpec(s, height), BeginSpec(RewindSpec(b).0, height), y + a.spent, |s.tree.leaves|, key)
  {
    var c := |s.tree.leaves|;
    TreeRewound(s.tree, b.tree, CheckpointId(height));
    RewindKeepsBelow(b, c);
    OldAndUnspent(s.held, a.held, y, a.spent, c, key);
    MinusTwice(s.inFlight, a.spent, y, key);
    assert y + a.spent == a.spent + y;
    assert s.spent + (y + a.spent) == a.spent + y;
  }

  lemma OldAndUnspent(
      m0: map<nat, HeldNote>, m: map<nat, HeldNote>, y: set<Hash>, spent: set<Hash>, c: nat, key: NullifierOf)
    requires Below(m, c) == Minus(m0, spent, key) && forall p :: p in m0 ==> p < c
    ensures Below(KeepOld(m, y, c, key), c) == KeepOld(m0, y + spent, c, key)
  {
    var l, r := Below(KeepOld(m, y, c, key), c), KeepOld(m0, y + spent, c, key);
    forall p | p in l ensures p in r && l[p] == r[p] {
      assert p in Below(m, c) && Below(m, c)[p] == m[p];
      assert p in Minus(m0, spent, key);
    }
    forall p | p in r ensures p in l {
      assert p in Minus(m0, spent, key);
      assert p in Below(m, c);
    }
  }

  // ------------------------------------------------------------ one failed attempt, one pool

  /** One pool after an attempt that got through `k` transactions and then applied
      the spends `acts` of the next before it failed. */
  function Undone(
      t: Store, txs: seq<TxReply>, k: nat, acts: seq<ScannedAction>, p: ValuePool, height: nat, keys: Keys)
    : Store
    requires k <= |txs|
  {
    RewindSpec(SpendPool(At(t, txs, k, p, height, keys), acts, p, keys.nullifier)).0
  }

  lemma ResidueAfterFailure(
      s: Store, t: Store, y: set<Hash>, txs: seq<TxReply>, k: nat, acts: seq<ScannedAction>, p: ValuePool,
      height: nat, keys: Keys)
    requires Sound(s, txs, p, height, keys) && Residue(s, t, y, txs, p, height, keys) && k <= |txs|
    requires acts == [] || (k < |txs| && acts == ActionsOf(txs[k], keys, height))
    ensures Residue(s, Undone(t, txs, k, acts, p, height, keys),
                    y + SpendPool(At(s, txs, k, p, height, keys), acts, p, keys.nullifier).spent, txs, p, height, keys)
  {
    var key := keys.nullifier;
    var c := |s.tree.leaves|;
    var taken := Known(s, key) + s.spent + CreatedBy(txs[..k], p, height, keys);
    var a, b := At(s, txs, k, p, height, keys), At(t, txs, k, p, height, keys);
    CleanAt(s, txs, k, p, height, keys);
    AheadAt(s, t, y, txs, k, p, height, keys);
    CleanSpend(s, a, taken, acts, p, height, key);
    AheadSpend(a, b, y, c, acts, p, key);
    RewindAhead(s, SpendPool(a, acts, p, key), SpendPool(b, acts, p, key), y, taken, height, key);
    SpentByTheEnd(s, txs, k, acts, p, height, keys);
  }

  lemma SpentByTheEnd(
      s: Store, txs: seq<TxReply>, k: nat, acts: seq<ScannedAction>, p: ValuePool, height: nat, keys: Keys)
    requires Sound(s, txs, p, height, keys) && k <= |txs|
    requires acts == [] || (k < |txs| && acts == ActionsOf(txs[k], keys, height))
    ensures SpendPool(At(s, txs, k, p, height, keys), acts, p, keys.nullifier).spent
         <= At(s, txs, |txs|, p, height, keys).spent
  {
    if acts == [] {
      SpentGrows(s, txs, k, |txs|, p, height, keys);
    } else {
      var taken := Known(s, keys.nullifier) + s.spent + CreatedBy(txs[..k], p, height, keys);
      CleanAt(s, txs, k, p, height, keys);
      CleanSpend(s, At(s, txs, k, p, height, keys), taken, acts, p, height, keys.nullifier);
      SpentStep(s, txs, k, p, height, keys);
      SpentGrows(s, txs, k + 1, |txs|, p, height, keys);
    }
  }

  // ------------------------------------------------------------ both pools

  ghost predicate SoundBoth(ps: Pools, txs: seq<TxReply>, height: nat, keys: Keys) {
    Sound(ps.orchard, txs, Orchard, height, keys) && Sound(ps.ironwood, txs, Ironwood, height, keys)
  }

  /** `qs` is `ps` after some failed attempts at the block. */
  ghost predicate Level(
      ps: Pools, qs: Pools, yo: set<Hash>, yi: set<Hash>, txs: seq<TxReply>, height: nat, keys: Keys)
  {
    && Residue(ps.orchard, qs.orchard, yo, txs, Orchard, height, keys)
    && Residue(ps.ironwood, qs.ironwood, yi, txs, Ironwood, height, keys)
  }

  function AtBoth(ps: Pools, txs: seq<TxReply>, k: nat, height: nat, keys: Keys): Pools
    requires k <= |txs|
  {
    Pools(At(ps.orchard, txs, k, Orchard, height, keys), At(ps.ironwood, txs, k, Ironwood, height, keys))
  }

  /** A body that got this far without failing had not failed before either. */
  lemma BodyNext(begun: Pools, txs: seq<TxReply>, k: nat, height: nat, keys: Keys, attributions: map<Hash, AccountId>)
    requires k < |txs| && BodySpec(begun, txs[..k + 1], height, keys, attributions).1.Ok?
    ensures var (before, r) := BodySpec(begun, txs[..k], height, keys, attributions);
            && r.Ok? && !txs[k].Failed?
            && BodySpec(begun, txs[..k + 1], height, keys, attributions).0 == TxBoth(before, txs[k], height, keys)
  {
    assert txs[..k + 1][..k] == txs[..k];
  }

  lemma AtBothNext(ps: Pools, txs: seq<TxReply>, k: nat, height: nat, keys: Keys)
    requires k < |txs|
    ensures TxBoth(AtBoth(ps, txs, k, height, keys), txs[k], height, keys) == AtBoth(ps, txs, k + 1, height, keys)
  {
    AtNext(ps.orchard, txs, k, Orchard, height, keys);
    AtNext(ps.ironwood, txs, k, Ironwood, height, keys);
  }

  lemma AtBothFirst(ps: Pools, txs: seq<TxReply>, height: nat, keys: Keys)
    ensures AtBoth(ps, txs, 0, height, keys) == BeginBoth(ps, height)
  {
    assert txs[..0] == [];
  }

  /** While nothing fails, the body is the two pools fed side by side. */
  lemma {:induction false} BodyShape(
      ps: Pools, txs: seq<TxReply>, k: nat, height: nat, keys: Keys, attributions: map<Hash, AccountId>)
    requires k <= |txs| && BodySpec(BeginBoth(ps, height), txs[..k], height, keys, attributions).1.Ok?
    ensures BodySpec(BeginBoth(ps, height), txs[..k], height, keys, attributions).0 == AtBoth(ps, txs, k, height, keys)
  {
    if k == 0 {
      AtBothFirst(ps, txs, height, keys);
    } else {
      BodyNext(BeginBoth(ps, height), txs, k - 1, height, keys, attributions);
      BodyShape(ps, txs, k - 1, height, keys, attributions);
      AtBothNext(ps, txs, k - 1, height, keys);
    }
  }

  lemma {:induction false} NotFailed(
      begun: Pools, txs: seq<TxReply>, k: nat, i: nat, height: nat, keys: Keys, attributions: map<Hash, AccountId>)
    requires i < k <= |txs| && BodySpec(begun, txs[..k], height, keys, attributions).1.Ok?
    ensures !txs[i].Failed?
    decreases k
  {
    BodyNext(begun, txs, k - 1, height, keys, attributions);
    if i < k - 1 {
      NotFailed(begun, txs, k - 1, i, height, keys, attributions);
    }
  }

  /** A failing body got through some transactions and stopped at the next. */
  lemma {:induction false} FailurePoint(
      begun: Pools, txs: seq<TxReply>, n: nat, height: nat, keys: Keys, attributions: map<Hash, AccountId>)
    returns (k: nat)
    requires n <= |txs| && BodySpec(begun, txs[..n], height, keys, attributions).1.Err?
    ensures k < n && BodySpec(begun, txs[..k], height, keys, attributions).1.Ok?
    ensures BodySpec(begun, txs[..n], height, keys, attributions).0
         == SpendBoth(BodySpec(begun, txs[..k], height, keys, attributions).0, ActionsOf(txs[k], keys, height),
                      keys.nullifier)
  {
    assert txs[..0] == [];
    k := n - 1;
    FailureBefore(begun, txs, n, k, height, keys, attributions);
    if BodySpec(begun, txs[..k], height, keys, attributions).1.Err? {
      k := FailurePoint(begun, txs, k, height, keys, attributions);
    }
  }

  lemma FailureBefore(
      begun: Pools, txs: seq<TxReply>, n: nat, k: nat, height: nat, keys: Keys, attributions: map<Hash, AccountId>)
    requires n == k + 1 <= |txs| && BodySpec(begun, txs[..n], height, keys, attributions).1.Err?
    ensures var (before, r) := BodySpec(begun, txs[..k], height, keys, attributions);
            BodySpec(begun, txs[..n], height, keys, attributions).0
              == if r.Err? then before else SpendBoth(before, ActionsOf(txs[k], keys, height), keys.nullifier)
  {
    LastFailure(begun, txs, n, height, keys, attributions);
  }

  lemma LastFailure(
      begun: Pools, txs: seq<TxReply>, n: nat, height: nat, keys: Keys, attributions: map<Hash, AccountId>)
    requires n <= |txs| && BodySpec(begun, txs[..n], height, keys, attributions).1.Err?
    ensures n > 0
    ensures var (before, r) := BodySpec(begun, txs[..n - 1], height, keys, attributions);
            BodySpec(begun, txs[..n], height, keys, attributions).0
              == if r.Err? then before else SpendBoth(before, ActionsOf(txs[n - 1], keys, height), keys.nullifier)
  {
    assert n > 0 ==> txs[..n][..n - 1] == txs[..n - 1];
  }

  /** What the node may answer when asked for a block: no list of transactions, or
      the block's own with some not answered. */
  predicate AttemptAt(reply: BlockReply, block: seq<TxReply>) {
    reply.Txids? ==>
      |reply.txs| == |block| && forall i :: 0 <= i < |block| ==> reply.txs[i].Failed? || reply.txs[i] == block[i]
  }

  lemma FailureUndone(
      qs: Pools, block: seq<TxReply>, reply: BlockReply, height: nat, keys: Keys, attributions: map<Hash, AccountId>)
    returns (k: nat, acts: seq<ScannedAction>)
    requires AttemptAt(reply, block) && !Done(qs, height)
    requires FeedSpec(qs, reply, height, keys, attributions).1.Err?
    ensures k <= |block| && (acts == [] || (k < |block| && acts == ActionsOf(block[k], keys, height)))
    ensures FeedSpec(qs, reply, height, keys, attributions).0
         == Pools(Undone(qs.orchard, block, k, acts, Orchard, height, keys),
                  Undone(qs.ironwood, block, k, acts, Ironwood, height, keys))
  {
    if reply.NoTxids? {
      k, acts := 0, [];
      assert block[..0] == [];
    } else {
      assert reply.txs[..|block|] == reply.txs;
      k := FailurePoint(BeginBoth(qs, height), reply.txs, |block|, height, keys, attributions);
      BodyShape(qs, reply.txs, k, height, keys, attributions);
      acts := ActionsOf(reply.txs[k], keys, height);
      forall i | 0 <= i < k ensures reply.txs[i] == block[i] {
        NotFailed(BeginBoth(qs, height), reply.txs, k, i, height, keys, attributions);
      }
      assert reply.txs[..k] == block[..k];
    }
  }

  lemma FailureKeepsLevel(
      ps: Pools, qs: Pools, yo: set<Hash>, yi: set<Hash>, block: seq<TxReply>, reply: BlockReply,
      height: nat, keys: Keys, attributions: map<Hash, AccountId>)
    returns (yo': set<Hash>, yi': set<Hash>)
    requires SoundBoth(ps, block, height, keys) && Level(ps, qs, yo, yi, block, height, keys)
    requires AttemptAt(reply, block) && !Done(qs, height)
    requires FeedSpec(qs, reply, height, keys, attributions).1.Err?
    ensures Level(ps, FeedSpec(qs, reply, height, keys, attributions).0, yo', yi', block, height, keys)
  {
    var k, acts := FailureUndone(qs, block, reply, height, keys, attributions);
    yo' := yo + SpendPool(At(ps.orchard, block, k, Orchard, height, keys), acts, Orchard, keys.nullifier).spent;
    yi' := yi + SpendPool(At(ps.ironwood, block, k, Ironwood, height, keys), acts, Ironwood, keys.nullifier).spent;
    ResidueAfterFailure(ps.orchard, qs.orchard, yo, block, k, acts, Orchard, height, keys);
    ResidueAfterFailure(ps.ironwood, qs.ironwood, yi, block, k, acts, Ironwood, height, keys);
  }

  // ------------------------------------------------------------ the attempt that succeeds

  lemma SameOutcomeAt(
      ps: Pools, qs: Pools, yo: set<Hash>, yi: set<Hash>, block: seq<TxReply>, k: nat,
      height: nat, keys: Keys, attributions: map<Hash, AccountId>)
    requires SoundBoth(ps, block, height, keys) && Level(ps, qs, yo, yi, block, height, keys) && k < |block|
    ensures TxOutcome(AtBoth(ps, block, k, height, keys), block[k], height, keys, attributions)
         == TxOutcome(AtBoth(qs, block, k, height, keys), block[k], height, keys, attributions)
  {
    SameSpendsKnown(ps.orchard, qs.orchard, yo, block, k, Orchard, height, keys);
    SameSpendsKnown(ps.ironwood, qs.ironwood, yi, block, k, Ironwood, height, keys);
  }

  /** One more transaction: the same answer from equal outcomes. */
  lemma SameNext(
      a: Pools, b: Pools, block: seq<TxReply>, k: nat, height: nat, keys: Keys, attributions: map<Hash, AccountId>)
    requires k < |block|
    requires BodySpec(a, block[..k], height, keys, attributions).1
          == BodySpec(b, block[..k], height, keys, attributions).1
    requires var (x, r) := BodySpec(a, block[..k], height, keys, attributions);
             var (y, q) := BodySpec(b, block[..k], height, keys, attributions);
             r.Ok? ==>
               TxOutcome(x, block[k], height, keys, attributions) == TxOutcome(y, block[k], height, keys, attributions)
    ensures BodySpec(a, block[..k + 1], height, keys, attributions).1
         == BodySpec(b, block[..k + 1], height, keys, attributions).1
  {
    assert block[..k + 1][..k] == block[..k];
  }

  /** With and without the residue the body answers the same, transaction by transaction. */
  lemma {:induction false} SameAnswers(
      ps: Pools, qs: Pools, yo: set<Hash>, yi: set<Hash>, block: seq<TxReply>, k: nat,
      height: nat, keys: Keys, attributions: map<Hash, AccountId>)
    requires SoundBoth(ps, block, height, keys) && Level(ps, qs, yo, yi, block, height, keys) && k <= |block|
    ensures BodySpec(BeginBoth(ps, height), block[..k], height, keys, attributions).1
         == BodySpec(BeginBoth(qs, height), block[..k], height, keys, attributions).1
  {
    if k == 0 {
      assert block[..0] == [];
    } else {
      SameAnswers(ps, qs, yo, yi, block, k - 1, height, keys, attributions);
      if BodySpec(BeginBoth(ps, height), block[..k - 1], height, keys, attributions).1.Ok? {
        BodyShape(ps, block, k - 1, height, keys, attributions);
        BodyShape(qs, block, k - 1, height, keys, attributions);
        SameOutcomeAt(ps, qs, yo, yi, block, k - 1, height, keys, attributions);
      }
      SameNext(BeginBoth(ps, height), BeginBoth(qs, height), block, k - 1, height, keys, attributions);
    }
  }

  lemma SameEnd(
      ps: Pools, qs: Pools, yo: set<Hash>, yi: set<Hash>, block: seq<TxReply>,
      height: nat, keys: Keys, attributions: map<Hash, AccountId>)
    requires SoundBoth(ps, block, height, keys) && Level(ps, qs, yo, yi, block, height, keys)
    ensures var (a, r) := FeedSpec(ps, Txids(block), height, keys, attributions);
            var (b, q) := FeedSpec(qs, Txids(block), height, keys, attributions);
            q == r && (r.Ok? && !Done(ps, height) ==> b == a)
  {
    assert block[..|block|] == block;
    SameAnswers(ps, qs, yo, yi, block, |block|, height, keys, attributions);
    if BodySpec(BeginBoth(ps, height), block, height, keys, attributions).1.Ok? {
      BodyShape(ps, block, |block|, height, keys, attributions);
      BodyShape(qs, block, |block|, height, keys, attributions);
    }
    ResidueEnds(ps.orchard, qs.orchard, yo, block, Orchard, height, keys);
    ResidueEnds(ps.ironwood, qs.ironwood, yi, block, Ironwood, height, keys);
  }

  // ------------------------------------------------------------ any number of failures

  datatype Attempt = Attempt(reply: BlockReply, attributions: map<Hash, AccountId>)

  function AfterAttempts(ps: Pools, attempts: seq<Attempt>, height: nat, keys: Keys): Pools {
    if attempts == [] then ps else
      var n := |attempts| - 1;
      FeedSpec(AfterAttempts(ps, attempts[..n], height, keys), attempts[n].reply, height, keys,
               attempts[n].attributions).0
  }

  /** Each is an attempt at this block and fails where it stands. */
  ghost predicate AllFail(ps: Pools, block: seq<TxReply>, attempts: seq<Attempt>, height: nat, keys: Keys) {
    forall i :: 0 <= i < |attempts| ==>
      && AttemptAt(attempts[i].reply, block)
      && FeedSpec(AfterAttempts(ps, attempts[..i], height, keys), attempts[i].reply, height, keys,
                  attempts[i].attributions).1.Err?
  }

  lemma LevelAtFirst(ps: Pools, txs: seq<TxReply>, height: nat, keys: Keys)
    ensures Level(ps, ps, {}, {}, txs, height, keys)
  {
    NoResidue(ps.orchard, height, keys.nullifier);
    NoResidue(ps.ironwood, height, keys.nullifier);
  }

  lemma NoResidue(s: Store, height: nat, key: NullifierOf)
    ensures Ahead(BeginSpec(s, height), BeginSpec(s, height), {}, |s.tree.leaves|, key)
  {
    assert KeepOld(s.held, {}, |s.tree.leaves|, key) == s.held;
    assert Minus(s.inFlight, {}, key) == s.inFlight;
    assert s.spent + {} == s.spent;
  }

  lemma {:induction false} LevelAfter(ps: Pools, block: seq<TxReply>, attempts: seq<Attempt>, height: nat, keys: Keys)
    returns (yo: set<Hash>, yi: set<Hash>)
    requires SoundBoth(ps, block, height, keys) && AllFail(ps, block, attempts, height, keys)
    ensures Level(ps, AfterAttempts(ps, attempts, height, keys), yo, yi, block, height, keys)
    decreases |attempts|
  {
    if attempts == [] {
      yo, yi := {}, {};
      LevelAtFirst(ps, block, height, keys);
    } else {
      var n := |attempts| - 1;
      AllFailFront(ps, block, attempts, height, keys);
      yo, yi := LevelAfter(ps, block, attempts[..n], height, keys);
      yo, yi := FailureKeepsLevel(ps, AfterAttempts(ps, attempts[..n], height, keys), yo, yi, block,
                                  attempts[n].reply, height, keys, attempts[n].attributions);
    }
  }

  lemma AllFailFront(ps: Pools, block: seq<TxReply>, attempts: seq<Attempt>, height: nat, keys: Keys)
    requires attempts != [] && AllFail(ps, block, attempts, height, keys)
    ensures var n := |attempts| - 1; var qs := AfterAttempts(ps, attempts[..n], height, keys);
            && AllFail(ps, block, attempts[..n], height, keys)
            && AttemptAt(attempts[n].reply, block) && !Done(qs, height)
            && FeedSpec(qs, attempts[n].reply, height, keys, attempts[n].attributions).1.Err?
  {
    var front := attempts[..|attempts| - 1];
    forall i | 0 <= i < |front| ensures front[..i] == attempts[..i] {
    }
    FrontFails(ps, block, front, attempts, height, keys);
    FailedIsNotDone(AfterAttempts(ps, front, height, keys), attempts[|front|], height, keys);
  }

  lemma FrontFails(
      ps: Pools, block: seq<TxReply>, front: seq<Attempt>, attempts: seq<Attempt>, height: nat, keys: Keys)
    requires AllFail(ps, block, attempts, height, keys) && front <= attempts
    requires forall i :: 0 <= i < |front| ==> front[..i] == attempts[..i]
    ensures AllFail(ps, block, front, height, keys)
  {
  }

  lemma FailedIsNotDone(qs: Pools, a: Attempt, height: nat, keys: Keys)
    ensures FeedSpec(qs, a.reply, height, keys, a.attributions).1.Err? ==> !Done(qs, height)
  {
  }

  /** Retry transparency. However many attempts at a block fail, and wherever,
      the next complete answer from the node gives what it would have given at
      first: the same deposits and forced frames or the same refusal, and on
      success the same stores to the last field, checkpoints included. */
  lemma RetryLeavesNoTrace(
      ps: Pools, block: seq<TxReply>, attempts: seq<Attempt>, height: nat, keys: Keys,
      attributions: map<Hash, AccountId>)
    requires SoundBoth(ps, block, height, keys) && AllFail(ps, block, attempts, height, keys)
    ensures var (a, r) := FeedSpec(ps, Txids(block), height, keys, attributions);
            var (b, q) := FeedSpec(AfterAttempts(ps, attempts, height, keys), Txids(block), height, keys, attributions);
            q == r && (r.Ok? ==> b == a)
  {
    var yo, yi := LevelAfter(ps, block, attempts, height, keys);
    SameEnd(ps, AfterAttempts(ps, attempts, height, keys), yo, yi, block, height, keys, attributions);
    if attempts != [] {
      FailedMeansNotDone(ps, block, attempts, height, keys);
    }
  }

  lemma FailedMeansNotDone(ps: Pools, block: seq<TxReply>, attempts: seq<Attempt>, height: nat, keys: Keys)
    requires attempts != [] && AllFail(ps, block, attempts, height, keys)
    ensures !Done(ps, height)
  {
    assert attempts[..0] == [];
  }
}
