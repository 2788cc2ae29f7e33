/** Whether the trees ever miss a block (src/shielded.rs, `observe` and `sync_notes`).
    A pass feeds them from above where they stand, but never from below the height
    the vault is configured to start at. */
module Gaps {
  import opened Prelude
  import opened Notes
  import opened Shielded
  import opened Scanner
  import opened FeedRuns
  import opened Observe

  /** The first block the trees do not have. */
  function NextBlock(c: Config, synced: Option<nat>): nat {
    if synced.Some? then synced.value + 1 else c.fromHeight
  }

  /** The configured start does not lie past the next block. */
  predicate StartsInTime(c: Config, ps: Pools) {
    BothSynced(ps).Some? ==> c.fromHeight <= BothSynced(ps).value + 1
  }

  /** What the blocks left out commit in a pool: those before the first one fed. */
  function Missed(c: Config, ps: Pools, node: Node, p: ValuePool): seq<Hash> {
    var next, a := NextBlock(c, BothSynced(ps)), TreeFrom(c, BothSynced(ps));
    CommitmentsFrom(next, a - next, node, p)
  }

  /** What every block from the next one up to `b` commits. */
  function Due(c: Config, ps: Pools, b: nat, node: Node, p: ValuePool): seq<Hash>
    requires NextBlock(c, BothSynced(ps)) <= b
  {
    CommitmentsFrom(NextBlock(c, BothSynced(ps)), b - NextBlock(c, BothSynced(ps)) + 1, node, p)
  }

  lemma DueIs(c: Config, ps: Pools, a: nat, b: nat, node: Node, p: ValuePool, fed: seq<Hash>)
    requires a == TreeFrom(c, BothSynced(ps)) <= b && fed == CommitmentsFrom(a, b - a + 1, node, p)
    ensures Due(c, ps, b, node, p) == Missed(c, ps, node, p) + fed
  {
    var next := NextBlock(c, BothSynced(ps));
    var m, n, total := a - next, b - a + 1, b - next + 1;
    CommitmentsSplit(next, m, a, n, total, node, p);
  }

  lemma CommitmentsNext(a: nat, n: nat, total: nat, at: nat, node: Node, p: ValuePool)
    requires total == n + 1 && at == a + n
    ensures CommitmentsFrom(a, total, node, p) == CommitmentsFrom(a, n, node, p) + BlockCommitments(TxsOf(node(at)), p)
  {
    assert total - 1 == n && a + (total - 1) == at;
  }

  lemma {:induction false} CommitmentsSplit(
      a: nat, m: nat, mid: nat, n: nat, total: nat, node: Node, p: ValuePool)
    requires mid == a + m && total == m + n
    ensures CommitmentsFrom(a, total, node, p) == CommitmentsFrom(a, m, node, p) + CommitmentsFrom(mid, n, node, p)
  {
    if n > 0 {
      var k, less, at := n - 1, total - 1, mid + n - 1;
      CommitmentsSplit(a, m, mid, k, less, node, p);
      CommitmentsNext(a, less, total, at, node, p);
      CommitmentsNext(mid, k, n, at, node, p);
      Regroup(CommitmentsFrom(a, m, node, p), CommitmentsFrom(mid, k, node, p), BlockCommitments(TxsOf(node(at)), p));
    } else {
      assert CommitmentsFrom(a, m, node, p) + [] == CommitmentsFrom(a, m, node, p);
    }
  }

  lemma Regroup(a: seq<Hash>, b: seq<Hash>, c: seq<Hash>)
    ensures (a + b) + c == a + (b + c)
  {
  }

  lemma WholeInParts(had: seq<Hash>, has: seq<Hash>, missed: seq<Hash>, fed: seq<Hash>, all: seq<Hash>)
    requires all == missed + fed && has == Cap(had + fed)
    ensures |had| + |all| <= CAPACITY ==> (has == Cap(had + all) <==> missed == [])
  {
    if |had| + |all| <= CAPACITY {
      SameExactlyWithout(had, missed, fed);
    }
  }

  lemma SameExactlyWithout(had: seq<Hash>, missed: seq<Hash>, fed: seq<Hash>)
    requires |had| + |missed + fed| <= CAPACITY
    ensures Cap(had + fed) == Cap(had + (missed + fed)) <==> missed == []
  {
    if missed == [] {
      assert missed + fed == fed;
    } else {
      assert |had + (missed + fed)| != |had + fed|;
    }
  }

  /** What a range fed from `TreeFrom` up to `b` means for one pool. It starts at the
      next block, and the tree is what it was followed by every block from there,
      exactly when the configured start does not lie past it. When it does, and
      as long as the tree is not filled up, nothing is missing exactly when the
      blocks left out commit nothing in this pool. */
  ghost predicate FedInTime(ps: Pools, end: Pools, b: nat, node: Node, c: Config, p: ValuePool)
    requires TreeFrom(c, BothSynced(ps)) <= b
  {
    var had, has := Pick(ps, p).tree.leaves, Pick(end, p).tree.leaves;
    var due := Due(c, ps, b, node, p);
    && (TreeFrom(c, BothSynced(ps)) == NextBlock(c, BothSynced(ps)) && has == Cap(had + due) <==> StartsInTime(c, ps))
    && (|had| + |due| <= CAPACITY ==> (has == had + due <==> Missed(c, ps, node, p) == []))
  }

  lemma FedIsInTime(ps: Pools, end: Pools, a: nat, b: nat, node: Node, c: Config, p: ValuePool)
    requires a == TreeFrom(c, BothSynced(ps)) <= b
    requires Pick(end, p).tree.leaves == Cap(Pick(ps, p).tree.leaves + CommitmentsFrom(a, b - a + 1, node, p))
    ensures FedInTime(ps, end, b, node, c, p)
  {
    var fed := CommitmentsFrom(a, b - a + 1, node, p);
    DueIs(c, ps, a, b, node, p, fed);
    WholeInParts(Pick(ps, p).tree.leaves, Pick(end, p).tree.leaves, Missed(c, ps, node, p), fed,
                 Due(c, ps, b, node, p));
    if a == NextBlock(c, BothSynced(ps)) {
      assert Missed(c, ps, node, p) == [];
      assert [] + fed == fed;
    }
  }

  /** After a pass of `observe` that fed the trees. */
  lemma ObserveLeavesNoGapExactlyWhen(
      ps: Pools, tip: nat, node: Node, from: nat, c: Config, keys: Keys, p: ValuePool, commit: CommitmentOf)
    requires Together(ps, commit) && tip < HEIGHTS && forall h: nat :: AllHonest(TxsOf(node(h)), commit)
    requires ObserveSpec(ps, true, tip, node, from, c, keys).1.Ok?
    requires FeedRange(c, ps, true, tip).Some? && Max(from, c.fromHeight) <= Reach(c, Max(from, c.fromHeight), tip)
    ensures var (a, b) := FeedRange(c, ps, true, tip).value;
            a == TreeFrom(c, BothSynced(ps)) <= b
            && FedInTime(ps, ObserveSpec(ps, true, tip, node, from, c, keys).0, b, node, c, p)
  {
    var (a, b) := FeedRange(c, ps, true, tip).value;
    TreesFed(ps, tip, node, from, c, keys, p, commit);
    FedIsInTime(ps, ObserveSpec(ps, true, tip, node, from, c, keys).0, a, b, node, c, p);
  }

  /** After `sync_notes` has fed them. */
  lemma SyncLeavesNoGapExactlyWhen(
      ps: Pools, upTo: nat, node: Node, c: Config, keys: Keys, p: ValuePool, commit: CommitmentOf)
    requires Together(ps, commit) && upTo < HEIGHTS && forall h: nat :: AllHonest(TxsOf(node(h)), commit)
    requires SyncSpec(ps, true, upTo, node, c, keys).1.Ok?
    requires TreeFrom(c, BothSynced(ps)) <= Reach(c, TreeFrom(c, BothSynced(ps)), upTo)
    ensures var (end, r) := SyncSpec(ps, true, upTo, node, c, keys);
            TreeFrom(c, BothSynced(ps)) <= r.value && BothSynced(end) == Some(r.value)
            && FedInTime(ps, end, r.value, node, c, p)
  {
    var a := TreeFrom(c, BothSynced(ps));
    var b := Reach(c, a, upTo);
    var end := FeedRun(ps, a, Span(a, b), FeedFrom(node, c, keys)).0;
    FeedingIsWhole(node, c, keys, p, commit);
    FeedRunExtends(ps, a, Span(a, b), node, FeedFrom(node, c, keys), p, commit);
    StandsAt(ps, end, a, b, node, p, commit);
    FedIsInTime(ps, end, a, b, node, c, p);
  }

  // ------------------------------------------------------------ a block left out

  lemma EmptyTogether(height: nat, commit: CommitmentOf)
    ensures Together(Pools(EmptyAt(height), EmptyAt(height)), commit)
  {
  }

  /** Five blocks, the third of which commits a note to the Orchard pool. */
  function OneNote(cmx: Hash): Node {
    (h: nat) => if h == 3 then Txids([Raw(0, [RawAction(Orchard, cmx, 0, None)])]) else Txids([])
  }

  lemma OneNoteCommits(cmx: Hash)
    ensures BlockCommitments(TxsOf(OneNote(cmx)(3)), Orchard) == [cmx]
    ensures forall h: nat :: h != 3 ==> BlockCommitments(TxsOf(OneNote(cmx)(h)), Orchard) == []
  {
    var raw := [RawAction(Orchard, cmx, 0, None)];
    var txs := [Raw(0, raw)];
    assert raw[..0] == [] && txs[..0] == [];
    assert Commitments(raw, Orchard) == [cmx];
    assert TxCommitments(txs[0], Orchard) == [cmx];
    assert BlockCommitments(txs, Orchard) == BlockCommitments(txs[..0], Orchard) + [cmx];
  }

  lemma {:induction false} CommitmentsOfOneNote(cmx: Hash, n: nat)
    requires n < 6
    ensures CommitmentsFrom(1, n, OneNote(cmx), Orchard) == if n < 3 then [] else [cmx]
  {
    OneNoteCommits(cmx);
    if n > 0 {
      CommitmentsOfOneNote(cmx, n - 1);
    }
  }

  /** The vault configured to start at height five, its trees standing at zero. */
  function LateStart(): Config {
    Config(5, 100, 0, map[], map[])
  }

  /** A pass of `observe`, or of `sync_notes`, that succeeds, says the trees stand at
      five, and has left the only note of the five blocks out of them. */
  lemma ABlockLeftOut(keys: Keys, cmx: Hash, commit: CommitmentOf)
    ensures var ps := Pools(EmptyAt(0), EmptyAt(0));
            var (end, r) := ObserveSpec(ps, true, 5, OneNote(cmx), 1, LateStart(), keys);
            && Together(ps, commit) && r.Ok? && BothSynced(end) == Some(5)
            && end.orchard.tree.leaves == [] && CommitmentsFrom(1, 5, OneNote(cmx), Orchard) == [cmx]
            && SyncSpec(ps, true, 5, OneNote(cmx), LateStart(), keys) == (end, Ok(5))
  {
    var ps := Pools(EmptyAt(0), EmptyAt(0));
    EmptyTogether(0, commit);
    CommitmentsOfOneNote(cmx, 5);
    FiveFed(ps, OneNote(cmx), keys);
    FiveSynced(FeedSpec(ps, Txids([]), 5, keys, map[]).0, ps, OneNote(cmx), keys);
    FiveRead(FeedSpec(ps, Txids([]), 5, keys, map[]).0, ps, OneNote(cmx), keys);
  }

  /** An empty block fed. */
  lemma FiveFed(ps: Pools, node: Node, keys: Keys)
    requires ps == Pools(EmptyAt(0), EmptyAt(0)) && node(5) == Txids([])
    ensures var (end, r) := FeedSpec(ps, Txids([]), 5, keys, map[]);
            && r == Ok(([], [])) && BothSynced(end) == Some(5) && end.orchard.tree.leaves == []
    ensures FeedRun(ps, 5, 1, FeedFrom(node, LateStart(), keys)).1.Ok?
    ensures FeedRun(ps, 5, 1, FeedFrom(node, LateStart(), keys)).0 == FeedSpec(ps, Txids([]), 5, keys, map[]).0
  {
    assert FeedRun(ps, 5, 0, FeedFrom(node, LateStart(), keys)) == (ps, Ok([]));
  }

  lemma FiveSynced(end: Pools, ps: Pools, node: Node, keys: Keys)
    requires ps == Pools(EmptyAt(0), EmptyAt(0))
    requires FeedRun(ps, 5, 1, FeedFrom(node, LateStart(), keys)).1.Ok?
    requires end == FeedRun(ps, 5, 1, FeedFrom(node, LateStart(), keys)).0
    ensures SyncSpec(ps, true, 5, node, LateStart(), keys) == (end, Ok(5))
  {
    assert TreeFrom(LateStart(), BothSynced(ps)) == 5 && Reach(LateStart(), 5, 5) == 5;
  }

  lemma FiveRead(end: Pools, ps: Pools, node: Node, keys: Keys)
    requires ps == Pools(EmptyAt(0), EmptyAt(0))
    requires FeedRun(ps, 5, 1, FeedFrom(node, LateStart(), keys)).1.Ok?
    requires end == FeedRun(ps, 5, 1, FeedFrom(node, LateStart(), keys)).0
    ensures ObserveSpec(ps, true, 5, node, 1, LateStart(), keys).0 == end
    ensures ObserveSpec(ps, true, 5, node, 1, LateStart(), keys).1.Ok?
  {
    assert FeedRange(LateStart(), ps, true, 5) == Some((5, 5));
    var see := SeeFrom(end, true, node, LateStart(), keys);
    assert SeenRun(5, 0, Some((5, 5)), see) == Ok([]);
    SeenNext(5, 0, Some((5, 5)), see, []);
  }
}
