/** Whole runs with failures in them: blocks that needed several attempts, and
    notes sent at any time, between attempts too (src/shielded.rs:1064-1155,
    src/notes.rs). */
module Erasure {
  import opened Prelude
  import opened Notes
  import W = Watcher
  import opened Shielded
  import opened Scanner
  import opened Retry
  import opened Transparency
  import opened FeedRuns

  /** Before a block is answered in full: an attempt at it, or a note sent. */
  datatype Event = Try(attempt: Attempt) | Pay(pool: ValuePool, position: nat)

  /** A block fed until the node answers in full. */
  datatype Stage = Stage(
    events: seq<Event>, height: nat, block: seq<TxReply>, attributions: map<Hash, W.AccountId>)

  /** The stores after some of what comes before the last answer. */
  function AfterEvents(ps: Pools, events: seq<Event>, height: nat, keys: Keys): Pools {
    if events == [] then ps else
      var mid := AfterEvents(ps, events[..|events| - 1], height, keys);
      match events[|events| - 1]
      case Try(a) => FeedSpec(mid, a.reply, height, keys, a.attributions).0
      case Pay(pool, position) => Step(mid, Send(pool, position), keys)
  }

  function AtLast(ps: Pools, st: Stage, keys: Keys): Pools {
    AfterEvents(ps, st.events, st.height, keys)
  }

  /** What the last answer gives. */
  function Told(ps: Pools, st: Stage, keys: Keys): Result<Found, Error> {
    FeedSpec(ps, Txids(st.block), st.height, keys, st.attributions).1
  }

  function Last(st: Stage): Op {
    Feed(st.height, Txids(st.block), st.attributions)
  }

  /** A run, block after block. */
  function Stages(ps: Pools, stages: seq<Stage>, keys: Keys): Pools {
    if stages == [] then ps else
      var st := stages[|stages| - 1];
      Step(AtLast(Stages(ps, stages[..|stages| - 1], keys), st, keys), Last(st), keys)
  }

  /** What it tells, block by block. */
  function Answers(ps: Pools, stages: seq<Stage>, keys: Keys): seq<Result<Found, Error>> {
    if stages == [] then [] else
      var st := stages[|stages| - 1];
      var mid := Stages(ps, stages[..|stages| - 1], keys);
      Answers(ps, stages[..|stages| - 1], keys) + [Told(AtLast(mid, st, keys), st, keys)]
  }

  // ------------------------------------------------------------ without the failures

  /** The notes sent, and no attempt made. */
  function Payments(events: seq<Event>): seq<Op> {
    if events == [] then [] else
      var e := events[|events| - 1];
      Payments(events[..|events| - 1]) + if e.Pay? then [Send(e.pool, e.position)] else []
  }

  /** The run as if nothing had failed. */
  function Erase(stages: seq<Stage>): seq<Op> {
    if stages == [] then [] else
      var st := stages[|stages| - 1];
      Erase(stages[..|stages| - 1]) + (Payments(st.events) + [Last(st)])
  }

  /** What such a run tells of its blocks. */
  function CleanAnswers(ps: Pools, ops: seq<Op>, keys: Keys): seq<Result<Found, Error>> {
    if ops == [] then [] else
      var mid, op := Run(ps, ops[..|ops| - 1], keys), ops[|ops| - 1];
      CleanAnswers(ps, ops[..|ops| - 1], keys)
        + if op.Feed? then [FeedSpec(mid, op.reply, op.height, keys, op.attributions).1] else []
  }

  lemma {:induction false} RunJoins(ps: Pools, a: seq<Op>, b: seq<Op>, keys: Keys)
    ensures Run(ps, a + b, keys) == Run(Run(ps, a, keys), b, keys)
    ensures CleanAnswers(ps, a + b, keys) == CleanAnswers(ps, a, keys) + CleanAnswers(Run(ps, a, keys), b, keys)
  {
    if b == [] {
      assert a + b == a;
    } else {
      var n := |b| - 1;
      assert (a + b)[..|a| + n] == a + b[..n];
      RunJoins(ps, a, b[..n], keys);
    }
  }

  lemma {:induction false} PaymentsTellNothing(ps: Pools, events: seq<Event>, keys: Keys)
    ensures CleanAnswers(ps, Payments(events), keys) == []
  {
    if events != [] {
      PaymentsTellNothing(ps, events[..|events| - 1], keys);
      var e, front := events[|events| - 1], Payments(events[..|events| - 1]);
      if e.Pay? {
        assert Payments(events)[..|front|] == front;
      } else {
        assert front + [] == front;
      }
    }
  }

  // ------------------------------------------------------------ what the chain guarantees

  /** The nullifiers of the notes of ours created up to here. */
  function Taken(taken: set<Hash>, stages: seq<Stage>, p: ValuePool, keys: Keys): set<Hash> {
    if stages == [] then taken else
      var st := stages[|stages| - 1];
      Taken(taken, stages[..|stages| - 1], p, keys) + CreatedBy(st.block, p, st.height, keys)
  }

  /** A block fits on what came before: its notes are new, no nullifier is
      revealed twice in it, and notes are the commitments' own. */
  ghost predicate Fits(taken: set<Hash>, st: Stage, p: ValuePool, keys: Keys, commit: CommitmentOf) {
    && AllNew(taken, st.block, p, st.height, keys) && RevealedOnce(st.block, p, st.height, keys)
    && AllHonest(st.block, commit) && st.height < HEIGHTS
  }

  /** Every attempt among these is one at the block, and fails. */
  ghost predicate TriesFail(ps: Pools, block: seq<TxReply>, events: seq<Event>, height: nat, keys: Keys) {
    events == [] ||
      var front, e := events[..|events| - 1], events[|events| - 1];
      && TriesFail(ps, block, front, height, keys)
      && (e.Try? ==>
            && AttemptAt(e.attempt.reply, block)
            && FeedSpec(AfterEvents(ps, front, height, keys), e.attempt.reply, height, keys,
                        e.attempt.attributions).1.Err?)
  }

  /** The failures are attempts at the block, and the last answer succeeds. */
  ghost predicate Recorded(ps: Pools, st: Stage, keys: Keys) {
    TriesFail(ps, st.block, st.events, st.height, keys) && Told(AtLast(ps, st, keys), st, keys).Ok?
  }

  ghost predicate ChainOk(
      ps: Pools, o: set<Hash>, i: set<Hash>, stages: seq<Stage>, keys: Keys, commit: CommitmentOf)
  {
    stages == [] ||
      var front, st := stages[..|stages| - 1], stages[|stages| - 1];
      && ChainOk(ps, o, i, front, keys, commit)
      && Fits(Taken(o, front, Orchard, keys), st, Orchard, keys, commit)
      && Fits(Taken(i, front, Ironwood, keys), st, Ironwood, keys, commit)
      && Recorded(Stages(ps, front, keys), st, keys)
  }

  /** One pool ready for the next block: no two notes share a nullifier, none is
      known both spent and unspent, and every nullifier known is among `taken`. */
  ghost predicate ReadyStore(s: Store, taken: set<Hash>, key: NullifierOf) {
    SoundStore(s, key) && Known(s, key) + s.spent <= taken
  }

  ghost predicate Ready(ps: Pools, o: set<Hash>, i: set<Hash>, keys: Keys, commit: CommitmentOf) {
    Together(ps, commit) && ReadyStore(ps.orchard, o, keys.nullifier) && ReadyStore(ps.ironwood, i, keys.nullifier)
  }

  // ------------------------------------------------------------ sending changes nothing a block does

  /** Two stores the same block does the same to, as far as the tree, the
      nullifiers spent and the nullifiers known go. */
  ghost predicate Alike(a: Store, b: Store, key: NullifierOf) {
    && a.tree == b.tree && a.appended == b.appended && a.spent == b.spent && Known(a, key) == Known(b, key)
    && (forall q :: q in a.held ==> q < |a.tree.leaves|)
    && (forall q :: q in b.held ==> q < |b.tree.leaves|)
  }

  lemma AlikeSpend(a: Store, b: Store, actions: seq<ScannedAction>, p: ValuePool, key: NullifierOf)
    requires Alike(a, b, key) && Unique(a, key) && Unique(b, key)
    ensures Alike(SpendPool(a, actions, p, key), SpendPool(b, actions, p, key), key)
  {
    SpendPoolIsPurge(a, actions, p, key);
    SpendPoolIsPurge(b, actions, p, key);
    PurgeKnown(a, Revealed(actions, p), key);
    PurgeKnown(b, Revealed(actions, p), key);
  }

  lemma KnownWith(s: Store, t: Store, pos: nat, n: HeldNote, key: NullifierOf)
    requires t.held == s.held[pos := n] && pos !in s.held && t.inFlight == s.inFlight
    ensures Known(t, key) == Known(s, key) + {key(n.note)}
  {
    assert t.held[pos] == n;
    assert forall q :: q in s.held ==> t.held[q] == s.held[q];
  }

  lemma AlikeAppendOne(a: Store, b: Store, x: ScannedAction, height: nat, txid: Hash, key: NullifierOf)
    requires Alike(a, b, key)
    ensures Alike(AppendOne(a, x, height, txid), AppendOne(b, x, height, txid), key)
  {
    SameAppend(a, b, x, height, txid);
    var pos := |a.tree.leaves|;
    if x.ours.Some? && pos < CAPACITY {
      var n := HeldNote(x.ours.value, pos, height, txid);
      KnownWith(a, AppendOne(a, x, height, txid), pos, n, key);
      KnownWith(b, AppendOne(b, x, height, txid), pos, n, key);
    }
  }

  lemma {:induction false} AlikeAppend(
      a: Store, b: Store, actions: seq<ScannedAction>, p: ValuePool, height: nat, txid: Hash, key: NullifierOf)
    requires Alike(a, b, key)
    ensures Alike(AppendPool(a, actions, p, height, txid), AppendPool(b, actions, p, height, txid), key)
  {
    if actions != [] {
      var n := |actions| - 1;
      AlikeAppend(a, b, actions[..n], p, height, txid, key);
      if actions[n].pool == p {
        AlikeAppendOne(AppendPool(a, actions[..n], p, height, txid), AppendPool(b, actions[..n], p, height, txid),
                       actions[n], height, txid, key);
      }
    }
  }

  lemma AlikeTx(a: Store, b: Store, t: TxReply, p: ValuePool, height: nat, keys: Keys)
    requires Alike(a, b, keys.nullifier) && Unique(a, keys.nullifier) && Unique(b, keys.nullifier)
    ensures Alike(PoolTx(a, t, p, height, keys), PoolTx(b, t, p, height, keys), keys.nullifier)
  {
    var actions := ActionsOf(t, keys, height);
    AlikeSpend(a, b, actions, p, keys.nullifier);
    AlikeAppend(SpendPool(a, actions, p, keys.nullifier), SpendPool(b, actions, p, keys.nullifier), actions, p, height,
                TxidOf(t), keys.nullifier);
  }

  lemma {:induction false} AlikeAt(a: Store, b: Store, txs: seq<TxReply>, k: nat, p: ValuePool, height: nat, keys: Keys)
    requires Sound(a, txs, p, height, keys) && Sound(b, txs, p, height, keys) && k <= |txs|
    requires Alike(BeginSpec(a, height), BeginSpec(b, height), keys.nullifier)
    ensures Alike(At(a, txs, k, p, height, keys), At(b, txs, k, p, height, keys), keys.nullifier)
  {
    if k == 0 {
      assert txs[..0] == [];
    } else {
      var m := k - 1;
      AlikeAt(a, b, txs, m, p, height, keys);
      CleanAt(a, txs, m, p, height, keys);
      CleanAt(b, txs, m, p, height, keys);
      AtNext(a, txs, m, p, height, keys);
      AtNext(b, txs, m, p, height, keys);
      AlikeTx(At(a, txs, m, p, height, keys), At(b, txs, m, p, height, keys), txs[m], p, height, keys);
    }
  }

  /** A store that has sent a note is still sound for the block, which ends with
      the same nullifiers spent. */
  lemma SoundAfterPaying(
      s: Store, position: nat, txs: seq<TxReply>, p: ValuePool, height: nat, keys: Keys, commit: CommitmentOf)
    requires Sound(s, txs, p, height, keys) && Filed(s, commit)
    ensures var s' := SpendSpec(s, position).0;
            && Sound(s', txs, p, height, keys)
            && At(s', txs, |txs|, p, height, keys).spent == At(s, txs, |txs|, p, height, keys).spent
  {
    var s' := SpendSpec(s, position).0;
    SpendKeepsValid(s, position);
    if position in s.held {
      SoundAfterSending(s, position, keys.nullifier);
      SendingKeepsKnown(s, position, keys.nullifier);
      AlikeAfterPaying(s, position, height, keys.nullifier);
      AlikeAt(s', s, txs, |txs|, p, height, keys);
    }
  }

  lemma AlikeAfterPaying(s: Store, position: nat, height: nat, key: NullifierOf)
    requires Valid(s) && Known(SpendSpec(s, position).0, key) == Known(s, key)
    ensures Alike(BeginSpec(SpendSpec(s, position).0, height), BeginSpec(s, height), key)
  {
  }

  /** Sending on both sides keeps a residue a residue. */
  lemma AheadPaying(a: Store, b: Store, y: set<Hash>, c: nat, position: nat, key: NullifierOf)
    requires Ahead(a, b, y, c, key) && (forall q :: q in a.held ==> q < c && q !in a.inFlight)
    ensures Ahead(SpendSpec(a, position).0, SpendSpec(b, position).0, y, c, key)
  {
    if position in a.held {
      var h := a.held[position];
      var a' := SpendSpec(a, position).0;
      if key(h.note) in y {
        assert KeepOld(a'.held, y, c, key) == b.held;
        assert Minus(a'.inFlight, y, key) == b.inFlight;
      } else {
        assert KeepOld(a'.held, y, c, key) == Without(b.held, position);
        assert Minus(a'.inFlight, y, key) == b.inFlight[position := h];
      }
    }
  }

  // ------------------------------------------------------------ one stage

  lemma {:induction false} AllNewFewer(
      a: set<Hash>, b: set<Hash>, txs: seq<TxReply>, p: ValuePool, height: nat, keys: Keys)
    requires a <= b && AllNew(b, txs, p, height, keys)
    ensures AllNew(a, txs, p, height, keys)
  {
    if txs != [] {
      var front, t := txs[..|txs| - 1], txs[|txs| - 1];
      AllNewFewer(a, b, front, p, height, keys);
      var created := CreatedBy(front, p, height, keys);
      NewNotesFewer(a + created, b + created, ActionsOf(t, keys, height), p, keys.nullifier);
    }
  }

  lemma {:induction false} NewNotesFewer(
      a: set<Hash>, b: set<Hash>, actions: seq<ScannedAction>, p: ValuePool, key: NullifierOf)
    requires a <= b && NewNotes(b, actions, p, key)
    ensures NewNotes(a, actions, p, key)
  {
    if actions != [] {
      NewNotesFewer(a, b, actions[..|actions| - 1], p, key);
    }
  }

  /** Ready and together, a block that fits is sound for each pool. */
  lemma FitsIsSound(
      ps: Pools, taken: set<Hash>, st: Stage, p: ValuePool, keys: Keys, commit: CommitmentOf)
    requires Together(ps, commit) && ReadyStore(Pick(ps, p), taken, keys.nullifier)
    requires Fits(taken, st, p, keys, commit) && !Done(ps, st.height)
    ensures Sound(Pick(ps, p), st.block, p, st.height, keys)
  {
    var s := Pick(ps, p);
    TakesNext(ps, st.height, p, commit);
    AllNewFewer(Known(s, keys.nullifier) + s.spent, taken, st.block, p, st.height, keys);
  }

  /** A finished block leaves a pool ready, with its own notes taken too. */
  lemma ReadyAfterBlock(s: Store, taken: set<Hash>, txs: seq<TxReply>, p: ValuePool, height: nat, keys: Keys)
    requires Sound(s, txs, p, height, keys) && ReadyStore(s, taken, keys.nullifier)
    ensures ReadyStore(FinishSpec(At(s, txs, |txs|, p, height, keys), height),
                       taken + CreatedBy(txs, p, height, keys), keys.nullifier)
  {
    SoundAfterBlock(s, txs, p, height, keys);
    CleanAt(s, txs, |txs|, p, height, keys);
    assert txs[..|txs|] == txs;
  }

  lemma ReadyAfterSending(s: Store, taken: set<Hash>, position: nat, keys: Keys, commit: CommitmentOf)
    requires ReadyStore(s, taken, keys.nullifier) && Filed(s, commit)
    ensures ReadyStore(SpendSpec(s, position).0, taken, keys.nullifier)
  {
    if position in s.held {
      SoundAfterSending(s, position, keys.nullifier);
      SendingKeepsKnown(s, position, keys.nullifier);
    }
  }

  lemma ReadyWithMore(s: Store, a: set<Hash>, b: set<Hash>, key: NullifierOf)
    requires ReadyStore(s, a, key) && a <= b
    ensures ReadyStore(s, b, key)
  {
  }

  /** One note sent, seen from one pool. */
  lemma ResiduePaid(
      s: Store, t: Store, y: set<Hash>, position: nat, txs: seq<TxReply>, p: ValuePool, height: nat, keys: Keys,
      commit: CommitmentOf)
    requires Sound(s, txs, p, height, keys) && Filed(s, commit) && Residue(s, t, y, txs, p, height, keys)
    ensures Sound(SpendSpec(s, position).0, txs, p, height, keys)
    ensures Residue(SpendSpec(s, position).0, SpendSpec(t, position).0, y, txs, p, height, keys)
  {
    SoundAfterPaying(s, position, txs, p, height, keys, commit);
    AheadPaying(BeginSpec(s, height), BeginSpec(t, height), y, |s.tree.leaves|, position, keys.nullifier);
    PayingThenBeginning(s, position, height);
    PayingThenBeginning(t, position, height);
  }

  lemma PayingThenBeginning(s: Store, position: nat, height: nat)
    ensures BeginSpec(SpendSpec(s, position).0, height) == SpendSpec(BeginSpec(s, height), position).0
    ensures SpendSpec(s, position).0.tree == s.tree
  {
  }

  /** A note sent between attempts keeps the two runs level. */
  lemma LevelPaid(
      ps: Pools, qs: Pools, yo: set<Hash>, yi: set<Hash>, pool: ValuePool, position: nat, block: seq<TxReply>,
      height: nat, keys: Keys, commit: CommitmentOf)
    requires Together(ps, commit) && SoundBoth(ps, block, height, keys) && Level(ps, qs, yo, yi, block, height, keys)
    ensures var op := Send(pool, position);
            && SoundBoth(Step(ps, op, keys), block, height, keys)
            && Done(Step(ps, op, keys), height) == Done(ps, height)
            && Level(Step(ps, op, keys), Step(qs, op, keys), yo, yi, block, height, keys)
  {
    if pool == Orchard {
      ResiduePaid(ps.orchard, qs.orchard, yo, position, block, Orchard, height, keys, commit);
    } else {
      ResiduePaid(ps.ironwood, qs.ironwood, yi, position, block, Ironwood, height, keys, commit);
    }
  }

  /** The clean run at the same point. */
  function Paid(ps: Pools, events: seq<Event>, keys: Keys): Pools {
    Run(ps, Payments(events), keys)
  }

  lemma PaidNext(ps: Pools, events: seq<Event>, keys: Keys)
    requires events != []
    ensures var e, mid := events[|events| - 1], Paid(ps, events[..|events| - 1], keys);
            Paid(ps, events, keys) == if e.Pay? then Step(mid, Send(e.pool, e.position), keys) else mid
  {
    var e, front := events[|events| - 1], Payments(events[..|events| - 1]);
    if e.Pay? {
      assert Payments(events)[..|front|] == front;
    } else {
      assert front + [] == front;
    }
  }

  /** The clean run and the actual one stand level, short of the block. */
  ghost predicate StandLevel(
      clean: Pools, actual: Pools, yo: set<Hash>, yi: set<Hash>, block: seq<TxReply>, height: nat, keys: Keys,
      commit: CommitmentOf)
  {
    && Together(clean, commit) && SoundBoth(clean, block, height, keys) && !Done(clean, height)
    && Level(clean, actual, yo, yi, block, height, keys)
  }

  lemma LevelAfterOne(
      clean: Pools, actual: Pools, yo: set<Hash>, yi: set<Hash>, e: Event, block: seq<TxReply>, height: nat, keys: Keys,
      commit: CommitmentOf)
    returns (yo': set<Hash>, yi': set<Hash>)
    requires StandLevel(clean, actual, yo, yi, block, height, keys, commit)
    requires e.Try? ==>
               && AttemptAt(e.attempt.reply, block)
               && FeedSpec(actual, e.attempt.reply, height, keys, e.attempt.attributions).1.Err?
    ensures match e
            case Try(a) =>
              StandLevel(clean, FeedSpec(actual, a.reply, height, keys, a.attributions).0, yo', yi', block, height,
                         keys, commit)
            case Pay(pool, position) =>
              var op := Send(pool, position);
              StandLevel(Step(clean, op, keys), Step(actual, op, keys), yo', yi', block, height, keys, commit)
  {
    match e {
      case Pay(pool, position) =>
        yo', yi' := yo, yi;
        StepTogether(clean, Send(pool, position), keys, commit);
        LevelPaid(clean, actual, yo, yi, pool, position, block, height, keys, commit);
      case Try(a) =>
        LevelIsAsFar(clean, actual, yo, yi, block, height, keys);
        yo', yi' := FailureKeepsLevel(clean, actual, yo, yi, block, a.reply, height, keys, a.attributions);
    }
  }

  lemma LevelIsAsFar(
      ps: Pools, qs: Pools, yo: set<Hash>, yi: set<Hash>, block: seq<TxReply>, height: nat, keys: Keys)
    requires Level(ps, qs, yo, yi, block, height, keys)
    ensures Done(ps, height) == Done(qs, height)
  {
  }

  /** Whatever comes before the last answer, the run stays level with the clean one. */
  lemma {:induction false} LevelAfterEvents(
      ps: Pools, events: seq<Event>, block: seq<TxReply>, height: nat, keys: Keys, commit: CommitmentOf)
    returns (yo: set<Hash>, yi: set<Hash>)
    requires StandLevel(ps, ps, {}, {}, block, height, keys, commit) && TriesFail(ps, block, events, height, keys)
    ensures StandLevel(Paid(ps, events, keys), AfterEvents(ps, events, height, keys), yo, yi, block, height, keys,
                       commit)
    decreases |events|
  {
    if events == [] {
      yo, yi := {}, {};
    } else {
      var front, e := events[..|events| - 1], events[|events| - 1];
      yo, yi := LevelAfterEvents(ps, front, block, height, keys, commit);
      PaidNext(ps, events, keys);
      yo, yi := LevelAfterOne(Paid(ps, front, keys), AfterEvents(ps, front, height, keys), yo, yi, e, block, height,
                              keys, commit);
    }
  }

  /** At a height already in no attempt can fail, so there were none. */
  lemma {:induction false} NoTries(ps: Pools, block: seq<TxReply>, events: seq<Event>, height: nat, keys: Keys)
    requires Done(ps, height) && TriesFail(ps, block, events, height, keys)
    ensures AfterEvents(ps, events, height, keys) == Paid(ps, events, keys) && Done(Paid(ps, events, keys), height)
  {
    if events != [] {
      NoTries(ps, block, events[..|events| - 1], height, keys);
      PaidNext(ps, events, keys);
    }
  }

  /** A block with all that came before its answer comes to the stores, and the
      answer, of the notes sent and then the block. */
  lemma StageErased(ps: Pools, o: set<Hash>, i: set<Hash>, st: Stage, keys: Keys, commit: CommitmentOf)
    requires Ready(ps, o, i, keys, commit) && Recorded(ps, st, keys)
    requires Fits(o, st, Orchard, keys, commit) && Fits(i, st, Ironwood, keys, commit)
    ensures Told(Paid(ps, st.events, keys), st, keys) == Told(AtLast(ps, st, keys), st, keys)
    ensures Step(Paid(ps, st.events, keys), Last(st), keys) == Step(AtLast(ps, st, keys), Last(st), keys)
  {
    if Done(ps, st.height) {
      NoTries(ps, st.block, st.events, st.height, keys);
    } else {
      FitsIsSound(ps, o, st, Orchard, keys, commit);
      FitsIsSound(ps, i, st, Ironwood, keys, commit);
      LevelAtFirst(ps, st.block, st.height, keys);
      var yo, yi := LevelAfterEvents(ps, st.events, st.block, st.height, keys, commit);
      SameEnd(Paid(ps, st.events, keys), AtLast(ps, st, keys), yo, yi, st.block, st.height, keys, st.attributions);
    }
  }

  // ---- ready for the next

  /** One pool after a block without failures. */
  lemma PoolReady(ps: Pools, taken: set<Hash>, st: Stage, p: ValuePool, keys: Keys, commit: CommitmentOf)
    requires Together(ps, commit) && ReadyStore(Pick(ps, p), taken, keys.nullifier)
    requires Fits(taken, st, p, keys, commit) && Told(ps, st, keys).Ok?
    ensures ReadyStore(Pick(Step(ps, Last(st), keys), p), taken + CreatedBy(st.block, p, st.height, keys),
                       keys.nullifier)
  {
    var s := Pick(ps, p);
    if Done(ps, st.height) {
      NothingFed(ps, st, keys);
      ReadyWithMore(s, taken, taken + CreatedBy(st.block, p, st.height, keys), keys.nullifier);
    } else {
      FitsIsSound(ps, taken, st, p, keys, commit);
      LandedIs(ps, Last(st), p, keys);
      ReadyAfterBlock(s, taken, st.block, p, st.height, keys);
    }
  }

  lemma NothingFed(ps: Pools, st: Stage, keys: Keys)
    requires Done(ps, st.height)
    ensures Step(ps, Last(st), keys) == ps
  {
  }

  lemma SentReady(ps: Pools, o: set<Hash>, i: set<Hash>, op: Op, keys: Keys, commit: CommitmentOf)
    requires Ready(ps, o, i, keys, commit) && op.Send?
    ensures Ready(Step(ps, op, keys), o, i, keys, commit)
  {
    StepTogether(ps, op, keys, commit);
    SentPicked(ps, op, Orchard, keys);
    SentPicked(ps, op, Ironwood, keys);
    ReadyAfterSending(ps.orchard, o, op.position, keys, commit);
    ReadyAfterSending(ps.ironwood, i, op.position, keys, commit);
  }

  lemma {:induction false} PaidReady(
      ps: Pools, o: set<Hash>, i: set<Hash>, events: seq<Event>, keys: Keys, commit: CommitmentOf)
    requires Ready(ps, o, i, keys, commit)
    ensures Ready(Paid(ps, events, keys), o, i, keys, commit)
  {
    if events != [] {
      var e, front := events[|events| - 1], events[..|events| - 1];
      PaidReady(ps, o, i, front, keys, commit);
      PaidNext(ps, events, keys);
      if e.Pay? {
        SentReady(Paid(ps, front, keys), o, i, Send(e.pool, e.position), keys, commit);
      }
    }
  }

  lemma StageReady(ps: Pools, o: set<Hash>, i: set<Hash>, st: Stage, keys: Keys, commit: CommitmentOf)
    requires Ready(ps, o, i, keys, commit) && Told(ps, st, keys).Ok?
    requires Fits(o, st, Orchard, keys, commit) && Fits(i, st, Ironwood, keys, commit)
    ensures Ready(Step(ps, Last(st), keys), o + CreatedBy(st.block, Orchard, st.height, keys),
                  i + CreatedBy(st.block, Ironwood, st.height, keys), keys, commit)
  {
    StepTogether(ps, Last(st), keys, commit);
    PoolReady(ps, o, st, Orchard, keys, commit);
    PoolReady(ps, i, st, Ironwood, keys, commit);
  }

  // ------------------------------------------------------------ the run

  /** Erasure. However many attempts each block of a run needed, and whatever notes
      were sent meanwhile, the run tells what it would have told and leaves the
      stores it would have left had none of them been made; and the stores are
      ready for another block. */
  lemma {:induction false} FailuresErased(
      ps: Pools, o: set<Hash>, i: set<Hash>, stages: seq<Stage>, keys: Keys, commit: CommitmentOf)
    requires Ready(ps, o, i, keys, commit) && ChainOk(ps, o, i, stages, keys, commit)
    ensures Stages(ps, stages, keys) == Run(ps, Erase(stages), keys)
    ensures Answers(ps, stages, keys) == CleanAnswers(ps, Erase(stages), keys)
    ensures Ready(Stages(ps, stages, keys), Taken(o, stages, Orchard, keys), Taken(i, stages, Ironwood, keys),
                  keys, commit)
  {
    if stages != [] {
      var front, st := stages[..|stages| - 1], stages[|stages| - 1];
      FailuresErased(ps, o, i, front, keys, commit);
      var mid := Stages(ps, front, keys);
      var o', i' := Taken(o, front, Orchard, keys), Taken(i, front, Ironwood, keys);
      StageErased(mid, o', i', st, keys, commit);
      PaidReady(mid, o', i', st.events, keys, commit);
      StageReady(Paid(mid, st.events, keys), o', i', st, keys, commit);
      LastErased(ps, front, stages, mid, keys);
    }
  }

  lemma LastErased(ps: Pools, front: seq<Stage>, stages: seq<Stage>, mid: Pools, keys: Keys)
    requires stages != [] && front == stages[..|stages| - 1] && mid == Run(ps, Erase(front), keys)
    ensures var st := stages[|stages| - 1]; var paid := Paid(mid, st.events, keys);
            && Run(ps, Erase(stages), keys) == Step(paid, Last(st), keys)
            && CleanAnswers(ps, Erase(stages), keys) == CleanAnswers(ps, Erase(front), keys) + [Told(paid, st, keys)]
  {
    var st := stages[|stages| - 1];
    var paid := Payments(st.events);
    RunJoins(ps, Erase(front), paid + [Last(st)], keys);
    RunJoins(mid, paid, [Last(st)], keys);
    PaymentsTellNothing(mid, st.events, keys);
    OneFed(Paid(mid, st.events, keys), st, keys);
  }

  lemma OneFed(ps: Pools, st: Stage, keys: Keys)
    ensures Run(ps, [Last(st)], keys) == Step(ps, Last(st), keys)
    ensures CleanAnswers(ps, [Last(st)], keys) == [Told(ps, st, keys)]
  {
    assert [Last(st)][..0] == [];
  }
}
