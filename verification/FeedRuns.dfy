/** What every run of feeding blocks and sending notes keeps (src/shielded.rs:1064-1155,
    src/notes.rs:192-355). */
module FeedRuns {
  import opened Prelude
  import opened Notes
  import opened Watcher
  import opened Shielded
  import opened Scanner
  import opened Retry
  import opened Transparency

  // ------------------------------------------------------------ what a block holds

  /** The commitments of these actions that go to a pool's tree, in order. */
  function Commitments(raw: seq<RawAction>, p: ValuePool): seq<Hash> {
    if raw == [] then [] else
      var a := raw[|raw| - 1];
      Commitments(raw[..|raw| - 1], p) + if a.pool == p then [a.cmx] else []
  }

  function TxCommitments(t: TxReply, p: ValuePool): seq<Hash> {
    if t.Raw? && |t.actions| <= U32_MAX then Commitments(t.actions, p) else []
  }

  function BlockCommitments(txs: seq<TxReply>, p: ValuePool): seq<Hash> {
    if txs == [] then [] else BlockCommitments(txs[..|txs| - 1], p) + TxCommitments(txs[|txs| - 1], p)
  }

  /** The tree stops taking leaves when it is full. */
  function Cap(xs: seq<Hash>): seq<Hash> {
    if |xs| <= CAPACITY then xs else xs[..CAPACITY]
  }

  lemma CapAppend(a: seq<Hash>, x: seq<Hash>)
    ensures Cap(Cap(a) + x) == Cap(a + x)
  {
    if |a| > CAPACITY {
      assert (a[..CAPACITY] + x)[..CAPACITY] == a[..CAPACITY] == (a + x)[..CAPACITY];
    }
  }

  /** A note's commitment, as the chain computes it. */
  type CommitmentOf = Note -> Hash

  /** A note decrypts only from an action that commits to it. */
  ghost predicate Honest(t: TxReply, commit: CommitmentOf) {
    t.Raw? ==> forall i :: 0 <= i < |t.actions| && t.actions[i].decrypted.Some? ==>
                 t.actions[i].cmx == commit(t.actions[i].decrypted.value.0)
  }

  ghost predicate HonestActions(actions: seq<ScannedAction>, commit: CommitmentOf) {
    forall i :: 0 <= i < |actions| && actions[i].ours.Some? ==> actions[i].cmx == commit(actions[i].ours.value)
  }

  /** A lenient scan reads every transaction but one with too many actions. */
  lemma {:induction false} LenientReads(raw: seq<RawAction>, keys: Keys, txid: Hash, height: nat)
    ensures ScanSpec(raw, keys, txid, height, map[], true).Ok? <==> |raw| <= U32_MAX
  {
    if raw != [] {
      LenientReads(raw[..|raw| - 1], keys, txid, height);
    }
  }

  lemma TakenCarriesCommitment(a: RawAction, keys: Keys, txid: Hash, height: nat, n: nat)
    ensures var t := TakeSpec(a, keys, txid, height, n, map[], true);
            t.Took? && t.action.cmx == a.cmx && t.action.pool == a.pool
            && (t.action.ours.Some? ==> a.decrypted.Some? && t.action.ours.value == a.decrypted.value.0)
  {
  }

  /** What is appended from a transaction is what its actions commit to. */
  lemma ScannedLikeRaw(t: TxReply, keys: Keys, height: nat, i: nat)
    requires i < |ActionsOf(t, keys, height)|
    ensures t.Raw? && |ActionsOf(t, keys, height)| == |t.actions| <= U32_MAX
    ensures var a := ActionsOf(t, keys, height)[i]; var raw := t.actions[i];
            a.cmx == raw.cmx && a.pool == raw.pool
            && (a.ours.Some? ==> raw.decrypted.Some? && a.ours.value == raw.decrypted.value.0)
  {
    LenientReads(t.actions, keys, t.txid, height);
    ScannedCount(t.actions, keys, t.txid, height, map[], true);
    ActionsInOrder(t.actions, i, keys, t.txid, height, map[], true);
    TakenCarriesCommitment(t.actions[i], keys, t.txid, height, i);
  }

  lemma HonestScan(t: TxReply, keys: Keys, height: nat, commit: CommitmentOf)
    requires Honest(t, commit)
    ensures HonestActions(ActionsOf(t, keys, height), commit)
  {
    var actions := ActionsOf(t, keys, height);
    forall i | 0 <= i < |actions| && actions[i].ours.Some? ensures actions[i].cmx == commit(actions[i].ours.value) {
      ScannedLikeRaw(t, keys, height, i);
    }
  }

  function Appended(actions: seq<ScannedAction>, p: ValuePool): seq<Hash> {
    if actions == [] then [] else
      var a := actions[|actions| - 1];
      Appended(actions[..|actions| - 1], p) + if a.pool == p then [a.cmx] else []
  }

  lemma {:induction false} AppendedIsCommitments(actions: seq<ScannedAction>, raw: seq<RawAction>, p: ValuePool)
    requires |actions| == |raw|
    requires forall i :: 0 <= i < |raw| ==> actions[i].cmx == raw[i].cmx && actions[i].pool == raw[i].pool
    ensures Appended(actions, p) == Commitments(raw, p)
  {
    if raw != [] {
      AppendedIsCommitments(actions[..|raw| - 1], raw[..|raw| - 1], p);
    }
  }

  lemma AppendedFromTx(t: TxReply, keys: Keys, height: nat, p: ValuePool)
    ensures Appended(ActionsOf(t, keys, height), p) == TxCommitments(t, p)
  {
    var actions := ActionsOf(t, keys, height);
    if t.Raw? {
      LenientReads(t.actions, keys, t.txid, height);
      if |t.actions| <= U32_MAX {
        ScannedCount(t.actions, keys, t.txid, height, map[], true);
        forall i | 0 <= i < |t.actions|
          ensures actions[i].cmx == t.actions[i].cmx && actions[i].pool == t.actions[i].pool
        {
          ScannedLikeRaw(t, keys, height, i);
        }
        AppendedIsCommitments(actions, t.actions, p);
      }
    }
  }

  // ------------------------------------------------------------ the invariant

  /** Everything the store would recognise as ours. */
  ghost function OursIn(s: Store, key: NullifierOf): set<Hash> {
    s.spent + Known(s, key)
  }

  /** Every note, held or in flight, is filed where its own commitment stands, and
      no position is both held and in flight. */
  ghost predicate Filed(s: Store, commit: CommitmentOf) {
    && (forall p :: p in s.held ==>
          p < |s.tree.leaves| && s.tree.leaves[p] == commit(s.held[p].note) && p !in s.inFlight)
    && (forall p :: p in s.inFlight ==> p < |s.tree.leaves| && s.tree.leaves[p] == commit(s.inFlight[p].note))
  }

  /** A block under way in one pool: `s0` is where it began. What was ours is
      known spent, in flight, or held below where the block began. */
  ghost predicate Underway(s0: Store, s: Store, keys: Keys, commit: CommitmentOf) {
    && Valid(s) && Filed(s, commit)
    && Grown(s0.tree, s.tree, |s0.tree.leaves|)
    && (forall p :: p in s.inFlight ==> p < |s0.tree.leaves|)
    && s.syncedTo == s0.syncedTo
    && OursIn(s0, keys.nullifier) <= StillOurs(s0, s, keys.nullifier)
  }

  /** What a rewind to where `s0` stands would leave recognisable. */
  ghost function StillOurs(s0: Store, s: Store, key: NullifierOf): set<Hash> {
    s.spent + NfsOf(Below(s.held, |s0.tree.leaves|), key) + NfsOf(s.inFlight, key)
  }

  lemma UnderwayNullifier(s0: Store, s: Store, nf: Hash, keys: Keys, commit: CommitmentOf)
    requires Underway(s0, s, keys, commit)
    ensures Underway(s0, NullifierSpec(s, nf, keys.nullifier).0, keys, commit)
    ensures NullifierSpec(s, nf, keys.nullifier).0.tree == s.tree
  {
    NullifierKeepsValid(s, nf, keys.nullifier);
    var s' := NullifierSpec(s, nf, keys.nullifier).0;
    forall x | x in StillOurs(s0, s, keys.nullifier) ensures x in StillOurs(s0, s', keys.nullifier) {
      ForgottenIsSpent(s0, s, s', nf, x, keys.nullifier);
    }
  }

  /** Dropping the note found leaves every other, and the one dropped is known spent. */
  lemma OneForgotten(s: Store, nf: Hash, key: NullifierOf)
    requires Keyed(s.held) && Keyed(s.inFlight)
    ensures var s' := NullifierSpec(s, nf, key).0;
            && s.spent <= s'.spent
            && (forall p :: p in s.held ==>
                  key(s.held[p].note) in s'.spent || (p in s'.held && s'.held[p] == s.held[p]))
            && (forall p :: p in s.inFlight ==>
                  key(s.inFlight[p].note) in s'.spent || (p in s'.inFlight && s'.inFlight[p] == s.inFlight[p]))
            && (nf in Known(s, key) ==> nf in s'.spent)
            && Keyed(s'.held) && Keyed(s'.inFlight)
  {
  }

  lemma ForgottenIsSpent(s0: Store, s: Store, s': Store, nf: Hash, x: Hash, key: NullifierOf)
    requires Keyed(s.held) && Keyed(s.inFlight)
    requires s' == NullifierSpec(s, nf, key).0 && x in StillOurs(s0, s, key)
    ensures x in StillOurs(s0, s', key)
  {
    OneForgotten(s, nf, key);
    if x in NfsOf(s.inFlight, key) {
      var p :| p in s.inFlight && key(s.inFlight[p].note) == x;
      assert p in s'.inFlight || x in s'.spent;
    } else if x !in s.spent {
      var low := Below(s.held, |s0.tree.leaves|);
      var p :| p in low && key(low[p].note) == x;
      assert p in Below(s'.held, |s0.tree.leaves|) || x in s'.spent;
    }
  }

  lemma FiledAppend(s: Store, a: ScannedAction, height: nat, txid: Hash, commit: CommitmentOf)
    requires Valid(s) && Filed(s, commit) && (a.ours.Some? ==> a.cmx == commit(a.ours.value))
    ensures Valid(AppendOne(s, a, height, txid)) && Filed(AppendOne(s, a, height, txid), commit)
  {
    if a.ours.Some? {
      AppendKeepsValid(s, a.cmx, true, a.ours.value, height, txid);
    } else {
      AppendKeepsValid(s, a.cmx, false, Note(0, 0, 0, 0, V2), height, txid);
    }
  }

  lemma LeafAppended(s: Store, a: ScannedAction, height: nat, txid: Hash)
    requires |s.tree.leaves| <= CAPACITY
    ensures var s' := AppendOne(s, a, height, txid);
            && s'.tree.leaves == Cap(s.tree.leaves + [a.cmx])
            && s'.tree.checkpoints == s.tree.checkpoints && s'.spent == s.spent && s'.inFlight == s.inFlight
            && s'.syncedTo == s.syncedTo
            && (forall p :: p < |s.tree.leaves| ==> (p in s'.tree.marked <==> p in s.tree.marked))
            && Below(s'.held, |s.tree.leaves|) == Below(s.held, |s.tree.leaves|)
  {
    assert (s.tree.leaves + [a.cmx])[..|s.tree.leaves|] == s.tree.leaves;
  }

  lemma BelowLess(m: map<nat, HeldNote>, n: map<nat, HeldNote>, c: nat, d: nat)
    requires Below(m, d) == Below(n, d) && c <= d
    ensures Below(m, c) == Below(n, c)
  {
    assert Below(m, c) == Below(Below(m, d), c);
    assert Below(n, c) == Below(Below(n, d), c);
  }

  lemma UnderwayAppend(s0: Store, s: Store, a: ScannedAction, height: nat, txid: Hash, keys: Keys, commit: CommitmentOf)
    requires Underway(s0, s, keys, commit) && (a.ours.Some? ==> a.cmx == commit(a.ours.value))
    ensures var s' := AppendOne(s, a, height, txid);
            Underway(s0, s', keys, commit) && s'.tree.leaves == Cap(s.tree.leaves + [a.cmx])
  {
    var s' := AppendOne(s, a, height, txid);
    FiledAppend(s, a, height, txid, commit);
    LeafAppended(s, a, height, txid);
    BelowLess(s'.held, s.held, |s0.tree.leaves|, |s.tree.leaves|);
  }

  lemma {:induction false} UnderwaySpends(
      s0: Store, s: Store, actions: seq<ScannedAction>, p: ValuePool, keys: Keys, commit: CommitmentOf)
    requires Underway(s0, s, keys, commit)
    ensures var s' := SpendPool(s, actions, p, keys.nullifier);
            Underway(s0, s', keys, commit) && s'.tree == s.tree
  {
    if actions != [] {
      var n := |actions| - 1;
      UnderwaySpends(s0, s, actions[..n], p, keys, commit);
      UnderwayNullifier(s0, SpendPool(s, actions[..n], p, keys.nullifier), actions[n].nullifier, keys, commit);
    }
  }

  lemma {:induction false} UnderwayAppends(
      s0: Store, s: Store, actions: seq<ScannedAction>, p: ValuePool, height: nat, txid: Hash, keys: Keys,
      commit: CommitmentOf)
    requires Underway(s0, s, keys, commit) && HonestActions(actions, commit)
    ensures var s' := AppendPool(s, actions, p, height, txid);
            Underway(s0, s', keys, commit) && s'.tree.leaves == Cap(s.tree.leaves + Appended(actions, p))
  {
    if actions == [] {
      assert s.tree.leaves + [] == s.tree.leaves;
    } else {
      var n := |actions| - 1;
      UnderwayAppends(s0, s, actions[..n], p, height, txid, keys, commit);
      var mid := AppendPool(s, actions[..n], p, height, txid);
      if actions[n].pool == p {
        UnderwayAppend(s0, mid, actions[n], height, txid, keys, commit);
        CapThen(s.tree.leaves, Appended(actions[..n], p), [actions[n].cmx]);
      } else {
        assert Appended(actions[..n], p) + [] == Appended(actions[..n], p);
      }
    }
  }

  lemma CapThen(a: seq<Hash>, b: seq<Hash>, c: seq<Hash>)
    ensures Cap(Cap(a + b) + c) == Cap(a + (b + c))
  {
    CapAppend(a + b, c);
    assert (a + b) + c == a + (b + c);
  }

  lemma UnderwayTx(s0: Store, s: Store, t: TxReply, p: ValuePool, height: nat, keys: Keys, commit: CommitmentOf)
    requires Underway(s0, s, keys, commit) && Honest(t, commit)
    ensures var s' := PoolTx(s, t, p, height, keys);
            Underway(s0, s', keys, commit) && s'.tree.leaves == Cap(s.tree.leaves + TxCommitments(t, p))
  {
    var actions := ActionsOf(t, keys, height);
    HonestScan(t, keys, height, commit);
    AppendedFromTx(t, keys, height, p);
    UnderwaySpends(s0, s, actions, p, keys, commit);
    UnderwayAppends(s0, SpendPool(s, actions, p, keys.nullifier), actions, p, height, TxidOf(t), keys, commit);
  }

  lemma UnderwayStart(s: Store, height: nat, keys: Keys, commit: CommitmentOf)
    requires Valid(s) && Filed(s, commit)
    ensures Underway(BeginSpec(s, height), BeginSpec(s, height), keys, commit)
  {
    BeginKeepsValid(s, height);
    assert Below(s.held, |s.tree.leaves|) == s.held;
  }

  // ------------------------------------------------------------ one feeding

  function Pick(ps: Pools, p: ValuePool): Store {
    if p == Orchard then ps.orchard else ps.ironwood
  }

  ghost predicate AllHonest(txs: seq<TxReply>, commit: CommitmentOf) {
    forall i :: 0 <= i < |txs| ==> Honest(txs[i], commit)
  }

  /** However far the body gets, each pool's block is under way, and if it gets
      to the end its commitments are in. */
  ghost predicate Fed(
      s0: Store, s: Store, txs: seq<TxReply>, whole: bool, p: ValuePool, keys: Keys, commit: CommitmentOf)
  {
    Underway(s0, s, keys, commit) && (whole ==> s.tree.leaves == Cap(s0.tree.leaves + BlockCommitments(txs, p)))
  }

  lemma FedTx(s0: Store, s: Store, txs: seq<TxReply>, p: ValuePool, height: nat, keys: Keys, commit: CommitmentOf)
    requires txs != [] && Honest(txs[|txs| - 1], commit)
    requires Fed(s0, s, txs[..|txs| - 1], true, p, keys, commit)
    ensures var t := txs[|txs| - 1];
            && Fed(s0, PoolTx(s, t, p, height, keys), txs, true, p, keys, commit)
            && Fed(s0, SpendPool(s, ActionsOf(t, keys, height), p, keys.nullifier), txs, false, p, keys, commit)
  {
    var n := |txs| - 1;
    UnderwayTx(s0, s, txs[n], p, height, keys, commit);
    UnderwaySpends(s0, s, ActionsOf(txs[n], keys, height), p, keys, commit);
    CapThen(s0.tree.leaves, BlockCommitments(txs[..n], p), TxCommitments(txs[n], p));
  }

  /** What the last transaction of the body does to one pool. */
  lemma BodyLast(
      begun: Pools, txs: seq<TxReply>, p: ValuePool, height: nat, keys: Keys, attributions: map<Hash, AccountId>)
    requires txs != []
    ensures var n := |txs| - 1;
            var (before, r) := BodySpec(begun, txs[..n], height, keys, attributions);
            var (after, q) := BodySpec(begun, txs, height, keys, attributions);
            && (r.Err? ==> q.Err? && after == before)
            && (r.Ok? && q.Ok? ==> Pick(after, p) == PoolTx(Pick(before, p), txs[n], p, height, keys))
            && (r.Ok? && q.Err? ==>
                  Pick(after, p) == SpendPool(Pick(before, p), ActionsOf(txs[n], keys, height), p, keys.nullifier))
  {
  }

  lemma {:induction false} BodyIsFed(
      begun: Pools, txs: seq<TxReply>, p: ValuePool, height: nat, keys: Keys, attributions: map<Hash, AccountId>,
      commit: CommitmentOf)
    requires Underway(Pick(begun, p), Pick(begun, p), keys, commit) && AllHonest(txs, commit)
    ensures var (after, r) := BodySpec(begun, txs, height, keys, attributions);
            Fed(Pick(begun, p), Pick(after, p), txs, r.Ok?, p, keys, commit)
  {
    if txs == [] {
      assert Pick(begun, p).tree.leaves + [] == Pick(begun, p).tree.leaves;
    } else {
      var n := |txs| - 1;
      BodyIsFed(begun, txs[..n], p, height, keys, attributions, commit);
      BodyLast(begun, txs, p, height, keys, attributions);
      var (before, r) := BodySpec(begun, txs[..n], height, keys, attributions);
      if r.Ok? {
        FedTx(Pick(begun, p), Pick(before, p), txs, p, height, keys, commit);
      }
    }
  }

  /** No checkpoint is of a block past the height the store is complete to. */
  ghost predicate Behind(s: Store) {
    var cs := s.tree.checkpoints;
    cs != [] ==> s.syncedTo.Some? && cs[|cs| - 1].id <= s.syncedTo.value
  }

  /** A store between blocks. */
  ghost predicate Sane(s: Store, commit: CommitmentOf) {
    Valid(s) && Filed(s, commit) && Behind(s)
  }

  /** Undoing a block under way takes every leaf of it back and forgets nothing that was ours. */
  lemma UndoUnderway(s: Store, u: Store, height: nat, keys: Keys, commit: CommitmentOf)
    requires Sane(s, commit) && TakesCheckpoint(s.tree, CheckpointId(height))
    requires Underway(BeginSpec(s, height), u, keys, commit)
    ensures var back := RewindSpec(u).0;
            && Sane(back, commit) && back.tree.leaves == s.tree.leaves && back.syncedTo == s.syncedTo
            && OursIn(s, keys.nullifier) <= OursIn(back, keys.nullifier)
  {
    RewoundTree(s, u, height, keys, commit);
    RewindKeepsValid(u);
    RewoundNotes(BeginSpec(s, height), u, RewindSpec(u).0, keys, commit);
  }

  lemma RewoundTree(s: Store, u: Store, height: nat, keys: Keys, commit: CommitmentOf)
    requires Sane(s, commit) && TakesCheckpoint(s.tree, CheckpointId(height))
    requires Underway(BeginSpec(s, height), u, keys, commit)
    ensures var back := RewindSpec(u).0;
            && back.tree.leaves == s.tree.leaves && back.held == Below(u.held, |s.tree.leaves|)
            && back.inFlight == u.inFlight && back.spent == u.spent && back.syncedTo == s.syncedTo && Behind(back)
  {
    assert Grown(TreeCheckpoint(s.tree, CheckpointId(height)), u.tree, |s.tree.leaves|);
    RewoundBehind(s, u, CheckpointId(height));
  }

  lemma RewoundBehind(s: Store, u: Store, id: nat)
    requires TakesCheckpoint(s.tree, id) && Grown(TreeCheckpoint(s.tree, id), u.tree, |s.tree.leaves|)
    requires (forall p :: p in s.tree.marked ==> p < |s.tree.leaves|) && Behind(s) && u.syncedTo == s.syncedTo
    ensures var back := RewindSpec(u).0;
            && back.tree.leaves == s.tree.leaves && back.held == Below(u.held, |s.tree.leaves|)
            && back.inFlight == u.inFlight && back.spent == u.spent && back.syncedTo == s.syncedTo && Behind(back)
  {
    TreeRewound(s.tree, u.tree, id);
    RewindKeepsBelow(u, |s.tree.leaves|);
  }

  lemma RewoundNotes(s0: Store, u: Store, back: Store, keys: Keys, commit: CommitmentOf)
    requires Underway(s0, u, keys, commit)
    requires back.tree.leaves == s0.tree.leaves && back.held == Below(u.held, |s0.tree.leaves|)
    requires back.inFlight == u.inFlight && back.spent == u.spent
    ensures Filed(back, commit) && OursIn(s0, keys.nullifier) <= OursIn(back, keys.nullifier)
  {
  }

  /** Where the last checkpoint stands, in a tree that refuses a new one. */
  function LastMark(t: Tree): nat
    requires t.checkpoints != []
  {
    t.checkpoints[|t.checkpoints| - 1].size
  }

  /** Exactly when a failed attempt gives the tree back as it was: the tree took the
      block's checkpoint, or has not grown since its last one. A tree that
      refused it is taken back past blocks it had finished. */
  lemma UndoneExactlyWhenTaken(s: Store, u: Store, height: nat, keys: Keys, commit: CommitmentOf)
    requires Sane(s, commit) && Underway(BeginSpec(s, height), u, keys, commit)
    ensures RewindSpec(u).0.tree.leaves == s.tree.leaves <==>
              TakesCheckpoint(s.tree, CheckpointId(height)) || LastMark(s.tree) == |s.tree.leaves|
    ensures !TakesCheckpoint(s.tree, CheckpointId(height)) ==>
              LastMark(s.tree) <= |s.tree.leaves| && RewindSpec(u).0.tree.leaves == s.tree.leaves[..LastMark(s.tree)]
  {
    if TakesCheckpoint(s.tree, CheckpointId(height)) {
      UndoUnderway(s, u, height, keys, commit);
    } else {
      var cs := s.tree.checkpoints;
      assert cs[|cs| - 1] in cs;
      assert u.tree.checkpoints == cs;
      assert u.tree.leaves[..LastMark(s.tree)] == s.tree.leaves[..LastMark(s.tree)];
    }
  }

  /** What feeding a block does to one pool. */
  ghost predicate FeedEffect(
      s: Store, s': Store, txs: seq<TxReply>, finished: bool, height: nat, p: ValuePool, keys: Keys,
      commit: CommitmentOf)
  {
    && Sane(s', commit)
    && OursIn(s, keys.nullifier) <= OursIn(s', keys.nullifier)
    && s'.tree.leaves == (if finished then Cap(s.tree.leaves + BlockCommitments(txs, p)) else s.tree.leaves)
    && s'.syncedTo == (if finished then Some(height) else s.syncedTo)
  }

  /** The block went in, whole. */
  predicate Finishes(ps: Pools, reply: BlockReply, height: nat, keys: Keys, attributions: map<Hash, AccountId>) {
    !Done(ps, height) && FeedSpec(ps, reply, height, keys, attributions).1.Ok?
  }

  function TxsOf(reply: BlockReply): seq<TxReply> {
    if reply.Txids? then reply.txs else []
  }

  lemma FinishFed(s: Store, u: Store, txs: seq<TxReply>, height: nat, p: ValuePool, keys: Keys, commit: CommitmentOf)
    requires TakesCheckpoint(s.tree, CheckpointId(height)) && height < HEIGHTS
    requires Fed(BeginSpec(s, height), u, txs, true, p, keys, commit)
    ensures FeedEffect(s, FinishSpec(u, height), txs, true, height, p, keys, commit)
  {
  }

  /** Undoing whatever of the block is under way is a feeding that did not finish. */
  lemma UndoFed(
      s: Store, u: Store, txs: seq<TxReply>, height: nat, p: ValuePool, keys: Keys, commit: CommitmentOf)
    requires Sane(s, commit) && TakesCheckpoint(s.tree, CheckpointId(height))
    requires Underway(BeginSpec(s, height), u, keys, commit)
    ensures FeedEffect(s, RewindSpec(u).0, txs, false, height, p, keys, commit)
  {
    UndoUnderway(s, u, height, keys, commit);
  }

  /** The body, finished or undone. */
  lemma BodyEffect(
      ps: Pools, txs: seq<TxReply>, height: nat, keys: Keys, attributions: map<Hash, AccountId>, p: ValuePool,
      commit: CommitmentOf)
    requires Sane(Pick(ps, p), commit) && AllHonest(txs, commit) && height < HEIGHTS
    requires TakesCheckpoint(Pick(ps, p).tree, CheckpointId(height))
    ensures var (after, r) := BodySpec(BeginBoth(ps, height), txs, height, keys, attributions);
            var u := Pick(after, p);
            FeedEffect(Pick(ps, p), if r.Ok? then FinishSpec(u, height) else RewindSpec(u).0, txs, r.Ok?, height, p,
                       keys, commit)
  {
    var s, begun := Pick(ps, p), BeginBoth(ps, height);
    UnderwayStart(s, height, keys, commit);
    assert Pick(begun, p) == BeginSpec(s, height);
    BodyIsFed(begun, txs, p, height, keys, attributions, commit);
    var (after, r) := BodySpec(begun, txs, height, keys, attributions);
    if r.Ok? {
      FinishFed(s, Pick(after, p), txs, height, p, keys, commit);
    } else {
      UndoFed(s, Pick(after, p), txs, height, p, keys, commit);
    }
  }

  /** A feeding as one pool sees it. */
  lemma FeedPicked(
      ps: Pools, reply: BlockReply, height: nat, keys: Keys, attributions: map<Hash, AccountId>, p: ValuePool)
    requires !Done(ps, height)
    ensures reply.NoTxids? ==>
              && Pick(FeedSpec(ps, reply, height, keys, attributions).0, p)
                 == RewindSpec(BeginSpec(Pick(ps, p), height)).0
              && !Finishes(ps, reply, height, keys, attributions)
    ensures reply.Txids? ==>
              var (after, r) := BodySpec(BeginBoth(ps, height), reply.txs, height, keys, attributions);
              var u := Pick(after, p);
              && Pick(FeedSpec(ps, reply, height, keys, attributions).0, p)
                 == (if r.Ok? then FinishSpec(u, height) else RewindSpec(u).0)
              && (Finishes(ps, reply, height, keys, attributions) <==> r.Ok?)
  {
  }

  /** So a feeding that fails leaves a pool's leaves as they were exactly when its
      tree took the block's checkpoint, or has not grown since its last one. */
  lemma FailureUndoesExactlyWhenTaken(
      ps: Pools, reply: BlockReply, height: nat, keys: Keys, attributions: map<Hash, AccountId>, p: ValuePool,
      commit: CommitmentOf)
    requires Sane(Pick(ps, p), commit) && AllHonest(TxsOf(reply), commit)
    requires FeedSpec(ps, reply, height, keys, attributions).1.Err?
    ensures var t := Pick(ps, p).tree;
            Pick(FeedSpec(ps, reply, height, keys, attributions).0, p).tree.leaves == t.leaves <==>
              TakesCheckpoint(t, CheckpointId(height)) || LastMark(t) == |t.leaves|
  {
    var s := Pick(ps, p);
    assert !Done(ps, height);
    FeedPicked(ps, reply, height, keys, attributions, p);
    UnderwayStart(s, height, keys, commit);
    if reply.NoTxids? {
      UndoneExactlyWhenTaken(s, BeginSpec(s, height), height, keys, commit);
    } else {
      var begun := BeginBoth(ps, height);
      assert Pick(begun, p) == BeginSpec(s, height);
      BodyIsFed(begun, reply.txs, p, height, keys, attributions, commit);
      var u := Pick(BodySpec(begun, reply.txs, height, keys, attributions).0, p);
      UndoneExactlyWhenTaken(s, u, height, keys, commit);
    }
  }

  lemma FeedingOnePool(
      ps: Pools, reply: BlockReply, height: nat, keys: Keys, attributions: map<Hash, AccountId>, p: ValuePool,
      commit: CommitmentOf)
    requires Sane(Pick(ps, p), commit) && AllHonest(TxsOf(reply), commit) && height < HEIGHTS
    requires !Done(ps, height) ==> TakesCheckpoint(Pick(ps, p).tree, CheckpointId(height))
    ensures FeedEffect(Pick(ps, p), Pick(FeedSpec(ps, reply, height, keys, attributions).0, p), TxsOf(reply),
                       Finishes(ps, reply, height, keys, attributions), height, p, keys, commit)
  {
    if !Done(ps, height) {
      FeedPicked(ps, reply, height, keys, attributions, p);
      if reply.NoTxids? {
        var s := Pick(ps, p);
        UnderwayStart(s, height, keys, commit);
        UndoFed(s, BeginSpec(s, height), [], height, p, keys, commit);
      } else {
        BodyEffect(ps, reply.txs, height, keys, attributions, p, commit);
      }
    }
  }

  lemma SendingOnePool(s: Store, position: nat, keys: Keys, commit: CommitmentOf)
    requires Sane(s, commit)
    ensures var s' := SpendSpec(s, position).0;
            && Sane(s', commit) && s'.tree == s.tree && s'.syncedTo == s.syncedTo
            && OursIn(s', keys.nullifier) == OursIn(s, keys.nullifier)
  {
    SpendKeepsValid(s, position);
    SendingKeepsFiled(s, position, commit);
    SendingKeepsKnown(s, position, keys.nullifier);
  }

  lemma SendingKeepsFiled(s: Store, position: nat, commit: CommitmentOf)
    requires Filed(s, commit)
    ensures Filed(SpendSpec(s, position).0, commit)
  {
  }

  lemma SendingKeepsKnown(s: Store, position: nat, key: NullifierOf)
    requires position !in s.inFlight || position !in s.held
    ensures var s' := SpendSpec(s, position).0; s'.spent == s.spent && Known(s', key) == Known(s, key)
  {
    var s' := SpendSpec(s, position).0;
    forall nf | nf in Known(s, key) ensures nf in Known(s', key) {
      if nf in NfsOf(s.held, key) {
        var p :| p in s.held && key(s.held[p].note) == nf;
        assert p in s'.held || p in s'.inFlight;
      } else {
        var p :| p in s.inFlight && key(s.inFlight[p].note) == nf;
        assert p in s'.inFlight;
      }
    }
  }

  // ------------------------------------------------------------ every run

  /** What happens to the stores: a block is fed, or a note is sent. */
  datatype Op =
    | Feed(height: nat, reply: BlockReply, attributions: map<Hash, AccountId>)
    | Send(pool: ValuePool, position: nat)

  datatype Block = Block(height: nat, txs: seq<TxReply>)

  function Step(ps: Pools, op: Op, keys: Keys): Pools {
    match op
    case Feed(height, reply, attributions) => FeedSpec(ps, reply, height, keys, attributions).0
    case Send(Orchard, position) => ps.(orchard := SpendSpec(ps.orchard, position).0)
    case Send(Ironwood, position) => ps.(ironwood := SpendSpec(ps.ironwood, position).0)
  }

  function Run(ps: Pools, ops: seq<Op>, keys: Keys): Pools {
    if ops == [] then ps else Step(Run(ps, ops[..|ops| - 1], keys), ops[|ops| - 1], keys)
  }

  function Landed(ps: Pools, op: Op, keys: Keys): seq<Block> {
    if op.Feed? && Finishes(ps, op.reply, op.height, keys, op.attributions) then [Block(op.height, TxsOf(op.reply))]
    else []
  }

  /** The blocks finished during a run, in order. */
  function Finished(ps: Pools, ops: seq<Op>, keys: Keys): seq<Block> {
    if ops == [] then [] else
      Finished(ps, ops[..|ops| - 1], keys) + Landed(Run(ps, ops[..|ops| - 1], keys), ops[|ops| - 1], keys)
  }

  function AllCommitments(blocks: seq<Block>, p: ValuePool): seq<Hash> {
    if blocks == [] then [] else
      AllCommitments(blocks[..|blocks| - 1], p) + BlockCommitments(blocks[|blocks| - 1].txs, p)
  }

  /** Block heights are 32-bit numbers, and notes are the commitments' own. */
  ghost predicate HonestOp(op: Op, commit: CommitmentOf) {
    op.Feed? ==> AllHonest(TxsOf(op.reply), commit) && op.height < HEIGHTS
  }

  /** Both pools stand at the same height. */
  predicate InStep(ps: Pools) {
    ps.orchard.syncedTo == ps.ironwood.syncedTo
  }

  /** Both pools between blocks, at the same height. */
  ghost predicate Together(ps: Pools, commit: CommitmentOf) {
    Sane(ps.orchard, commit) && Sane(ps.ironwood, commit) && InStep(ps)
  }

  /** Together, both trees take the checkpoint of any block not yet in. */
  lemma TakesNext(ps: Pools, height: nat, p: ValuePool, commit: CommitmentOf)
    requires Together(ps, commit) && !Done(ps, height) && height < HEIGHTS
    ensures TakesCheckpoint(Pick(ps, p).tree, CheckpointId(height))
  {
  }

  /** How far the trees are. */
  predicate Past(synced: Option<nat>, height: nat) {
    synced.Some? ==> synced.value < height
  }

  ghost predicate StepEffect(ps: Pools, op: Op, p: ValuePool, keys: Keys, commit: CommitmentOf) {
    var s, s' := Pick(ps, p), Pick(Step(ps, op, keys), p);
    && Sane(s', commit)
    && OursIn(s, keys.nullifier) <= OursIn(s', keys.nullifier)
    && s'.tree.leaves == Cap(s.tree.leaves + AllCommitments(Landed(ps, op, keys), p))
    && s'.syncedTo == (if Landed(ps, op, keys) == [] then s.syncedTo else Some(op.height))
  }

  lemma CommitmentsOfOne(b: Block, p: ValuePool)
    ensures AllCommitments([b], p) == BlockCommitments(b.txs, p)
  {
    assert [b][..0] == [];
  }

  lemma EachStep(ps: Pools, op: Op, p: ValuePool, keys: Keys, commit: CommitmentOf)
    requires Together(ps, commit) && HonestOp(op, commit)
    ensures StepEffect(ps, op, p, keys, commit)
  {
    if op.Feed? {
      FeedStep(ps, op, p, keys, commit);
    } else {
      SendStep(ps, op, p, keys, commit);
    }
  }

  lemma SendStep(ps: Pools, op: Op, p: ValuePool, keys: Keys, commit: CommitmentOf)
    requires Together(ps, commit) && op.Send?
    ensures StepEffect(ps, op, p, keys, commit)
  {
    var s := Pick(ps, p);
    if op.pool == p {
      SendingOnePool(s, op.position, keys, commit);
    }
    SentPicked(ps, op, p, keys);
    assert s.tree.leaves + [] == s.tree.leaves;
  }

  lemma SentPicked(ps: Pools, op: Op, p: ValuePool, keys: Keys)
    requires op.Send?
    ensures Pick(Step(ps, op, keys), p) == if op.pool == p then SpendSpec(Pick(ps, p), op.position).0 else Pick(ps, p)
  {
  }

  lemma FeedStep(ps: Pools, op: Op, p: ValuePool, keys: Keys, commit: CommitmentOf)
    requires Together(ps, commit) && HonestOp(op, commit) && op.Feed?
    ensures StepEffect(ps, op, p, keys, commit)
  {
    if !Done(ps, op.height) {
      TakesNext(ps, op.height, p, commit);
    }
    FeedingOnePool(ps, op.reply, op.height, keys, op.attributions, p, commit);
    FedEffect(ps, op, p, keys, commit);
  }

  lemma FedEffect(ps: Pools, op: Op, p: ValuePool, keys: Keys, commit: CommitmentOf)
    requires op.Feed? && Valid(Pick(ps, p))
    requires FeedEffect(Pick(ps, p), Pick(Step(ps, op, keys), p), TxsOf(op.reply),
                        Finishes(ps, op.reply, op.height, keys, op.attributions), op.height, p, keys, commit)
    ensures StepEffect(ps, op, p, keys, commit)
  {
    var s := Pick(ps, p);
    if Finishes(ps, op.reply, op.height, keys, op.attributions) {
      CommitmentsOfOne(Block(op.height, TxsOf(op.reply)), p);
    } else {
      assert s.tree.leaves + [] == s.tree.leaves;
    }
  }

  lemma StepTogether(ps: Pools, op: Op, keys: Keys, commit: CommitmentOf)
    requires Together(ps, commit) && HonestOp(op, commit)
    ensures Together(Step(ps, op, keys), commit)
    ensures Step(ps, op, keys).orchard.syncedTo
         == if Landed(ps, op, keys) == [] then ps.orchard.syncedTo else Some(op.height)
  {
    EachStep(ps, op, Orchard, keys, commit);
    EachStep(ps, op, Ironwood, keys, commit);
  }

  lemma {:induction false} RunTogether(ps: Pools, ops: seq<Op>, keys: Keys, commit: CommitmentOf)
    requires Together(ps, commit) && forall op :: op in ops ==> HonestOp(op, commit)
    ensures Together(Run(ps, ops, keys), commit)
  {
    if ops != [] {
      RunTogether(ps, ops[..|ops| - 1], keys, commit);
      StepTogether(Run(ps, ops[..|ops| - 1], keys), ops[|ops| - 1], keys, commit);
    }
  }

  /** Over every run from pools that stand together each pool's tree is what it
      started from followed by the commitments of every finished block, in order
      and once each; the counter is the number of leaves; every note stands where
      its own commitment does; and nothing once recognised as ours is ever
      forgotten. */
  lemma {:induction false} EveryRun(ps: Pools, ops: seq<Op>, p: ValuePool, keys: Keys, commit: CommitmentOf)
    requires Together(ps, commit) && forall op :: op in ops ==> HonestOp(op, commit)
    ensures var s, s' := Pick(ps, p), Pick(Run(ps, ops, keys), p);
            && s'.tree.leaves == Cap(s.tree.leaves + AllCommitments(Finished(ps, ops, keys), p))
            && s'.appended == |s'.tree.leaves|
            && Sane(s', commit)
            && OursIn(s, keys.nullifier) <= OursIn(s', keys.nullifier)
  {
    if ops == [] {
      assert Pick(ps, p).tree.leaves + [] == Pick(ps, p).tree.leaves;
    } else {
      var front, op := ops[..|ops| - 1], ops[|ops| - 1];
      EveryRun(ps, front, p, keys, commit);
      RunTogether(ps, front, keys, commit);
      EachStep(Run(ps, front, keys), op, p, keys, commit);
      CommitmentsJoin(ps, front, op, p, keys);
      CapThen(Pick(ps, p).tree.leaves, AllCommitments(Finished(ps, front, keys), p),
              AllCommitments(Landed(Run(ps, front, keys), op, keys), p));
    }
  }

  lemma CommitmentsJoin(ps: Pools, front: seq<Op>, op: Op, p: ValuePool, keys: Keys)
    ensures var before, landed := Finished(ps, front, keys), Landed(Run(ps, front, keys), op, keys);
            AllCommitments(before + landed, p) == AllCommitments(before, p) + AllCommitments(landed, p)
  {
    var before, landed := Finished(ps, front, keys), Landed(Run(ps, front, keys), op, keys);
    if landed != [] {
      assert landed == [landed[0]];
      CommitmentsOfOne(landed[0], p);
      assert (before + landed)[..|before|] == before;
    } else {
      assert before + landed == before;
    }
  }

  /** The heights rise strictly, from above where the trees started. */
  ghost predicate Rising(start: Option<nat>, blocks: seq<Block>) {
    && (forall b :: b in blocks ==> Past(start, b.height))
    && (forall i, j :: 0 <= i < j < |blocks| ==> blocks[i].height < blocks[j].height)
  }

  function LastHeight(start: Option<nat>, blocks: seq<Block>): Option<nat> {
    if blocks == [] then start else Some(blocks[|blocks| - 1].height)
  }

  lemma RisesBy(start: Option<nat>, blocks: seq<Block>, b: Block)
    requires Rising(start, blocks) && Past(LastHeight(start, blocks), b.height)
    ensures Rising(start, blocks + [b])
  {
    var n := |blocks|;
    if n > 0 {
      assert blocks[n - 1] in blocks;
    }
    forall i | 0 <= i < n ensures blocks[i].height < b.height {
      assert i < n - 1 ==> blocks[i].height < blocks[n - 1].height;
    }
  }

  lemma LandsAbove(ps: Pools, op: Op, keys: Keys)
    requires InStep(ps)
    ensures Landed(ps, op, keys) != [] ==> |Landed(ps, op, keys)| == 1 && Landed(ps, op, keys)[0].height == op.height
    ensures Landed(ps, op, keys) != [] ==> Past(ps.orchard.syncedTo, op.height)
  {
  }

  /** Two pools together stay together, and then no height is ever finished twice:
      the blocks of a run have strictly increasing heights, the last of them the
      height the trees report. */
  lemma {:induction false} HeightsOnlyRise(ps: Pools, ops: seq<Op>, keys: Keys, commit: CommitmentOf)
    requires Together(ps, commit) && forall op :: op in ops ==> HonestOp(op, commit)
    ensures var blocks, end := Finished(ps, ops, keys), Run(ps, ops, keys);
            && InStep(end) && Rising(ps.orchard.syncedTo, blocks)
            && end.orchard.syncedTo == LastHeight(ps.orchard.syncedTo, blocks)
  {
    RunTogether(ps, ops, keys, commit);
    if ops != [] {
      HeightsOnlyRise(ps, ops[..|ops| - 1], keys, commit);
      RunTogether(ps, ops[..|ops| - 1], keys, commit);
      RisesAtLast(ps, Run(ps, ops[..|ops| - 1], keys), ops, keys, commit);
    }
  }

  lemma RisesAtLast(ps: Pools, mid: Pools, ops: seq<Op>, keys: Keys, commit: CommitmentOf)
    requires ops != [] && mid == Run(ps, ops[..|ops| - 1], keys) && Together(mid, commit)
    requires HonestOp(ops[|ops| - 1], commit)
    requires var blocks := Finished(ps, ops[..|ops| - 1], keys);
             Rising(ps.orchard.syncedTo, blocks) && mid.orchard.syncedTo == LastHeight(ps.orchard.syncedTo, blocks)
    ensures var blocks := Finished(ps, ops, keys);
            && Rising(ps.orchard.syncedTo, blocks)
            && Run(ps, ops, keys).orchard.syncedTo == LastHeight(ps.orchard.syncedTo, blocks)
  {
    var op := ops[|ops| - 1];
    StepTogether(mid, op, keys, commit);
    LandsAbove(mid, op, keys);
    RisesWith(ps.orchard.syncedTo, Finished(ps, ops[..|ops| - 1], keys), Landed(mid, op, keys));
  }

  lemma RisesWith(start: Option<nat>, blocks: seq<Block>, landed: seq<Block>)
    requires Rising(start, blocks) && |landed| <= 1
    requires landed != [] ==> Past(LastHeight(start, blocks), landed[0].height)
    ensures Rising(start, blocks + landed)
    ensures LastHeight(start, blocks + landed)
         == if landed == [] then LastHeight(start, blocks) else Some(landed[0].height)
  {
    if landed == [] {
      assert blocks + landed == blocks;
    } else {
      assert landed == [landed[0]];
      RisesBy(start, blocks, landed[0]);
    }
  }

  // ------------------------------------------------------------ reading a block again

  lemma NullifierRemembered(s: Store, nf: Hash, x: Hash, key: NullifierOf)
    requires Keyed(s.held) && Keyed(s.inFlight) && x in OursIn(s, key)
    ensures x in OursIn(NullifierSpec(s, nf, key).0, key)
    ensures x == nf ==> x in NullifierSpec(s, nf, key).0.spent
  {
    var s' := NullifierSpec(s, nf, key).0;
    OneForgotten(s, nf, key);
    if x in NfsOf(s.inFlight, key) {
      var p :| p in s.inFlight && key(s.inFlight[p].note) == x;
      assert p in s'.inFlight || x in s'.spent;
    } else if x in NfsOf(s.held, key) {
      var p :| p in s.held && key(s.held[p].note) == x;
      assert p in s'.held || x in s'.spent;
    }
  }

  /** A nullifier of ours that a transaction reveals is known spent after its spends. */
  lemma {:induction false} RevealedIsSpent(
      s: Store, actions: seq<ScannedAction>, p: ValuePool, x: Hash, key: NullifierOf)
    requires Keyed(s.held) && Keyed(s.inFlight) && x in OursIn(s, key)
    ensures var s' := SpendPool(s, actions, p, key);
            && Keyed(s'.held) && Keyed(s'.inFlight) && x in OursIn(s', key)
            && (x in Revealed(actions, p) ==> x in s'.spent)
  {
    if actions != [] {
      var n := |actions| - 1;
      RevealedIsSpent(s, actions[..n], p, x, key);
      var mid := SpendPool(s, actions[..n], p, key);
      OneForgotten(mid, actions[n].nullifier, key);
      NullifierRemembered(mid, actions[n].nullifier, x, key);
    }
  }

  lemma SpentThroughTx(s: Store, t: TxReply, p: ValuePool, x: Hash, height: nat, keys: Keys)
    requires Keyed(s.held) && Keyed(s.inFlight)
    requires x in OursIn(s, keys.nullifier) && x in RevealedBy(t, p, height, keys)
    ensures x in PoolTx(s, t, p, height, keys).spent
  {
    var actions := ActionsOf(t, keys, height);
    RevealedIsSpent(s, actions, p, x, keys.nullifier);
    AppendsSpendNothing(SpendPool(s, actions, p, keys.nullifier), actions, p, height, TxidOf(t));
  }

  /** What is recognised as ours when a transaction of the block reveals it is
      known spent at the block's end. */
  lemma SpentThroughBlock(s: Store, txs: seq<TxReply>, k: nat, p: ValuePool, x: Hash, height: nat, keys: Keys)
    requires k < |txs| && x in RevealedBy(txs[k], p, height, keys)
    requires var now := At(s, txs, k, p, height, keys);
             Keyed(now.held) && Keyed(now.inFlight) && x in OursIn(now, keys.nullifier)
    ensures x in At(s, txs, |txs|, p, height, keys).spent
  {
    SpentThroughTx(At(s, txs, k, p, height, keys), txs[k], p, x, height, keys);
    AtNext(s, txs, k, p, height, keys);
    SpentGrows(s, txs, k + 1, |txs|, p, height, keys);
  }

  /** A finished block's own spends read as ours to whoever scans the block
      again, after any run: a note our transaction returned to us is told from a
      stranger's deposit however late the deposit scan comes. */
  lemma OwnSpendsStayOurs(
      ps: Pools, op: Op, ops: seq<Op>, k: nat, p: ValuePool, x: Hash, keys: Keys, commit: CommitmentOf)
    requires Together(ps, commit) && HonestOp(op, commit) && forall o :: o in ops ==> HonestOp(o, commit)
    requires op.Feed? && Landed(ps, op, keys) != [] && k < |TxsOf(op.reply)|
    requires x in RevealedBy(TxsOf(op.reply)[k], p, op.height, keys)
    requires Recognises(At(Pick(ps, p), TxsOf(op.reply), k, p, op.height, keys), x, keys.nullifier)
    ensures Recognises(Pick(Run(Step(ps, op, keys), ops, keys), p), x, keys.nullifier)
  {
    var s, txs := Pick(ps, p), op.reply.txs;
    var now := At(s, txs, k, p, op.height, keys);
    RecognisesIs(now, x, keys.nullifier);
    KeyedThrough(s, txs, k, p, op.height, keys);
    SpentThroughBlock(s, txs, k, p, x, op.height, keys);
    LandedIs(ps, op, p, keys);
    StepTogether(ps, op, keys, commit);
    EveryRun(Step(ps, op, keys), ops, p, keys, commit);
    RecognisesIs(Pick(Run(Step(ps, op, keys), ops, keys), p), x, keys.nullifier);
  }

  /** A finished block leaves each pool as feeding it alone would. */
  lemma LandedIs(ps: Pools, op: Op, p: ValuePool, keys: Keys)
    requires op.Feed? && Landed(ps, op, keys) != []
    ensures op.reply.Txids?
    ensures Pick(Step(ps, op, keys), p)
         == FinishSpec(At(Pick(ps, p), op.reply.txs, |op.reply.txs|, p, op.height, keys), op.height)
  {
    var txs := op.reply.txs;
    assert txs[..|txs|] == txs;
    BodyShape(ps, txs, |txs|, op.height, keys, op.attributions);
  }

  lemma {:induction false} KeyedSpends(s: Store, actions: seq<ScannedAction>, p: ValuePool, key: NullifierOf)
    requires Keyed(s.held) && Keyed(s.inFlight)
    ensures var s' := SpendPool(s, actions, p, key); Keyed(s'.held) && Keyed(s'.inFlight)
  {
    if actions != [] {
      var n := |actions| - 1;
      KeyedSpends(s, actions[..n], p, key);
      OneForgotten(SpendPool(s, actions[..n], p, key), actions[n].nullifier, key);
    }
  }

  lemma {:induction false} KeyedAppends(
      s: Store, actions: seq<ScannedAction>, p: ValuePool, height: nat, txid: Hash)
    requires Keyed(s.held) && Keyed(s.inFlight)
    ensures var s' := AppendPool(s, actions, p, height, txid); Keyed(s'.held) && Keyed(s'.inFlight)
  {
    if actions != [] {
      KeyedAppends(s, actions[..|actions| - 1], p, height, txid);
    }
  }

  lemma {:induction false} KeyedThrough(s: Store, txs: seq<TxReply>, k: nat, p: ValuePool, height: nat, keys: Keys)
    requires Keyed(s.held) && Keyed(s.inFlight) && k <= |txs|
    ensures var now := At(s, txs, k, p, height, keys); Keyed(now.held) && Keyed(now.inFlight)
  {
    if k == 0 {
      assert txs[..0] == [];
    } else {
      KeyedThrough(s, txs, k - 1, p, height, keys);
      AtNext(s, txs, k - 1, p, height, keys);
      var now, actions := At(s, txs, k - 1, p, height, keys), ActionsOf(txs[k - 1], keys, height);
      KeyedSpends(now, actions, p, keys.nullifier);
      KeyedAppends(SpendPool(now, actions, p, keys.nullifier), actions, p, height, TxidOf(txs[k - 1]));
    }
  }

  // ------------------------------------------------------------ what retry transparency asks of a store

  /** What `Retry.Sound` asks of the store, as opposed to the block. */
  ghost predicate SoundStore(s: Store, key: NullifierOf) {
    Unique(s, key) && Known(s, key) !! s.spent
  }

  /** It holds again after every sound block that is finished, and after every note sent. */
  lemma SoundAfterBlock(s: Store, txs: seq<TxReply>, p: ValuePool, height: nat, keys: Keys)
    requires Sound(s, txs, p, height, keys)
    ensures SoundStore(FinishSpec(At(s, txs, |txs|, p, height, keys), height), keys.nullifier)
  {
    CleanAt(s, txs, |txs|, p, height, keys);
  }

  lemma SoundAfterSending(s: Store, position: nat, key: NullifierOf)
    requires SoundStore(s, key) && position !in s.inFlight
    ensures SoundStore(SpendSpec(s, position).0, key)
  {
    if position in s.held {
      var s' := SpendSpec(s, position).0;
      var nf := key(s.held[position].note);
      assert nf in NfsOf(s.held, key);
      assert forall x :: x in NfsOf(s'.held, key) ==> x in NfsOf(s.held, key) && x != nf;
      assert forall x :: x in NfsOf(s'.inFlight, key) ==> x == nf || x in NfsOf(s.inFlight, key);
      assert forall q :: q in s.inFlight ==> key(s.inFlight[q].note) in NfsOf(s.inFlight, key);
    }
  }

  // ------------------------------------------------------------ pools out of step

  predicate AlreadyIn(s: Store, height: nat) {
    s.syncedTo.Some? && height <= s.syncedTo.value
  }

  /** No block is fed to a pool that already has it, whatever the height asked
      for, exactly when the pools stand at the same height. */
  lemma NeverTwiceExactlyWhenInStep(ps: Pools)
    ensures (forall h :: !Done(ps, h) ==> !AlreadyIn(ps.orchard, h) && !AlreadyIn(ps.ironwood, h)) <==> InStep(ps)
  {
    if !InStep(ps) {
      var a, b := ps.orchard.syncedTo, ps.ironwood.syncedTo;
      var h := if b.None? then a.value else if a.None? || a.value < b.value then b.value else a.value;
      assert !Done(ps, h) && (AlreadyIn(ps.orchard, h) || AlreadyIn(ps.ironwood, h));
    }
  }
}
