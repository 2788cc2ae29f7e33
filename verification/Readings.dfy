/** What a pass over the chain reads, block by block and transaction by transaction
    (src/shielded.rs:776-865, 1083-1155). */
module Readings {
  import opened Prelude
  import opened Notes
  import W = Watcher
  import opened Shielded
  import opened Scanner
  import opened Retry
  import opened Transparency
  import opened Observe

  // ------------------------------------------------------------ one block

  /** What the k-th transaction of a block tells when the block is fed. */
  function Told(ps: Pools, txs: seq<TxReply>, k: nat, height: nat, keys: Keys, attributions: map<Hash, W.AccountId>)
    : Result<Found, Scanner.Error>
    requires k < |txs|
  {
    TxOutcome(AtBoth(ps, txs, k, height, keys), txs[k], height, keys, attributions)
  }

  /** What the first so many told, one after another. */
  function ToldBy(ps: Pools, txs: seq<TxReply>, n: nat, height: nat, keys: Keys, attributions: map<Hash, W.AccountId>)
    : Found
    requires n <= |txs|
  {
    if n == 0 then ([], []) else
      var before := ToldBy(ps, txs, n - 1, height, keys, attributions);
      match Told(ps, txs, n - 1, height, keys, attributions)
      case Err(_) => before
      case Ok(found) => (before.0 + found.0, before.1 + found.1)
  }

  ghost predicate Tells(
      ps: Pools, txs: seq<TxReply>, k: nat, height: nat, keys: Keys, attributions: map<Hash, W.AccountId>)
    requires k < |txs|
  {
    Told(ps, txs, k, height, keys, attributions).Ok?
  }

  ghost predicate AllTold(
      ps: Pools, txs: seq<TxReply>, n: nat, height: nat, keys: Keys, attributions: map<Hash, W.AccountId>)
    requires n <= |txs|
  {
    forall k :: 0 <= k < n ==> Tells(ps, txs, k, height, keys, attributions)
  }

  /** The first transaction that fails, with its error. */
  ghost predicate FailsAt(
      ps: Pools, txs: seq<TxReply>, k: nat, e: Scanner.Error, height: nat, keys: Keys,
      attributions: map<Hash, W.AccountId>)
  {
    && k < |txs| && Told(ps, txs, k, height, keys, attributions) == Err(e)
    && AllTold(ps, txs, k, height, keys, attributions)
  }

  /** The first so many transactions told it, or the first that fails stopped them. */
  ghost predicate Adds(
      r: Result<Found, Scanner.Error>, ps: Pools, txs: seq<TxReply>, n: nat, height: nat, keys: Keys,
      attributions: map<Hash, W.AccountId>)
    requires n <= |txs|
  {
    && (r.Ok? <==> AllTold(ps, txs, n, height, keys, attributions))
    && (r.Ok? ==> r.value == ToldBy(ps, txs, n, height, keys, attributions))
    && (r.Err? ==> exists k: nat :: k < n && FailsAt(ps, txs, k, r.error, height, keys, attributions))
  }

  lemma AllToldNext(
      ps: Pools, txs: seq<TxReply>, k: nat, n: nat, height: nat, keys: Keys, attributions: map<Hash, W.AccountId>)
    requires n == k + 1 <= |txs|
    ensures AllTold(ps, txs, n, height, keys, attributions)
       <==> AllTold(ps, txs, k, height, keys, attributions) && Tells(ps, txs, k, height, keys, attributions)
  {
  }

  lemma AddsOne(
      before: Result<Found, Scanner.Error>, r: Result<Found, Scanner.Error>, ps: Pools, txs: seq<TxReply>, k: nat,
      n: nat, height: nat, keys: Keys, attributions: map<Hash, W.AccountId>)
    requires n == k + 1 <= |txs| && Adds(before, ps, txs, k, height, keys, attributions)
    requires before.Err? ==> r == before
    requires before.Ok? ==>
               r == match Told(ps, txs, k, height, keys, attributions)
                    case Err(e) => Err(e)
                    case Ok(found) => Ok((before.value.0 + found.0, before.value.1 + found.1))
    ensures Adds(r, ps, txs, n, height, keys, attributions)
  {
    AllToldNext(ps, txs, k, n, height, keys, attributions);
    if before.Ok? && r.Err? {
      assert FailsAt(ps, txs, k, r.error, height, keys, attributions);
    }
  }

  lemma BodyGoesTo(
      begun: Pools, txs: seq<TxReply>, k: nat, n: nat, height: nat, keys: Keys, attributions: map<Hash, W.AccountId>)
    requires n == k + 1 <= |txs|
    ensures var (before, r) := BodySpec(begun, txs[..k], height, keys, attributions);
            var s := BodySpec(begun, txs[..n], height, keys, attributions).1;
            && (r.Err? ==> s == r)
            && (r.Ok? ==> s == match TxOutcome(before, txs[k], height, keys, attributions)
                               case Err(e) => Err(e)
                               case Ok(found) => Ok((r.value.0 + found.0, r.value.1 + found.1)))
  {
    assert txs[..n][..k] == txs[..k];
  }

  lemma {:induction false} BodyAdds(
      ps: Pools, txs: seq<TxReply>, n: nat, height: nat, keys: Keys, attributions: map<Hash, W.AccountId>)
    requires n <= |txs|
    ensures Adds(BodySpec(BeginBoth(ps, height), txs[..n], height, keys, attributions).1, ps, txs, n, height, keys,
                 attributions)
  {
    var begun := BeginBoth(ps, height);
    if n == 0 {
      assert txs[..0] == [];
    } else {
      var k := n - 1;
      BodyAdds(ps, txs, k, height, keys, attributions);
      BodyGoesTo(begun, txs, k, n, height, keys, attributions);
      if BodySpec(begun, txs[..k], height, keys, attributions).1.Ok? {
        BodyShape(ps, txs, k, height, keys, attributions);
      }
      AddsOne(BodySpec(begun, txs[..k], height, keys, attributions).1,
              BodySpec(begun, txs[..n], height, keys, attributions).1, ps, txs, k, n, height, keys, attributions);
    }
  }

  /** A block fed: one the trees have tells nothing, one that cannot be listed is an
      error, and any other tells what its transactions tell in their order, or stops
      at the first of them that fails. */
  lemma BlockFed(
      ps: Pools, reply: BlockReply, height: nat, keys: Keys, attributions: map<Hash, W.AccountId>)
    ensures var r := FeedSpec(ps, reply, height, keys, attributions).1;
            && (Done(ps, height) ==> r == Ok(([], [])))
            && (!Done(ps, height) && reply.NoTxids? ==> r == Err(Rpc))
            && (!Done(ps, height) && reply.Txids? ==>
                  Adds(r, ps, reply.txs, |reply.txs|, height, keys, attributions))
  {
    if reply.Txids? {
      assert reply.txs[..|reply.txs|] == reply.txs;
      BodyAdds(ps, reply.txs, |reply.txs|, height, keys, attributions);
    }
  }

  // ---- scanned

  function SeenBy(ps: Pools, attached: bool, txs: seq<TxReply>, n: nat, height: nat, c: Config, keys: Keys): Found
    requires n <= |txs|
  {
    if n == 0 then ([], []) else
      var before := SeenBy(ps, attached, txs, n - 1, height, c, keys);
      match SeenTx(ps, attached, txs[n - 1], height, c, keys)
      case Err(_) => before
      case Ok(found) => (before.0 + found.0, before.1 + found.1)
  }

  ghost predicate AllSeen(
      ps: Pools, attached: bool, txs: seq<TxReply>, n: nat, height: nat, c: Config, keys: Keys)
    requires n <= |txs|
  {
    forall k :: 0 <= k < n ==> SeenTx(ps, attached, txs[k], height, c, keys).Ok?
  }

  ghost predicate UnseenAt(
      ps: Pools, attached: bool, txs: seq<TxReply>, k: nat, e: Scanner.Error, height: nat, c: Config, keys: Keys)
  {
    && k < |txs| && SeenTx(ps, attached, txs[k], height, c, keys) == Err(e)
    && AllSeen(ps, attached, txs, k, height, c, keys)
  }

  ghost predicate AddsSeen(
      r: Result<Found, Scanner.Error>, ps: Pools, attached: bool, txs: seq<TxReply>, n: nat, height: nat, c: Config,
      keys: Keys)
    requires n <= |txs|
  {
    && (r.Ok? <==> AllSeen(ps, attached, txs, n, height, c, keys))
    && (r.Ok? ==> r.value == SeenBy(ps, attached, txs, n, height, c, keys))
    && (r.Err? ==> exists k: nat :: k < n && UnseenAt(ps, attached, txs, k, r.error, height, c, keys))
  }

  lemma AllSeenNext(
      ps: Pools, attached: bool, txs: seq<TxReply>, k: nat, n: nat, height: nat, c: Config, keys: Keys)
    requires n == k + 1 <= |txs|
    ensures AllSeen(ps, attached, txs, n, height, c, keys)
       <==> AllSeen(ps, attached, txs, k, height, c, keys) && SeenTx(ps, attached, txs[k], height, c, keys).Ok?
  {
  }

  lemma ScanGoesTo(
      ps: Pools, attached: bool, txs: seq<TxReply>, k: nat, n: nat, height: nat, c: Config, keys: Keys)
    requires n == k + 1 <= |txs|
    ensures var before := SeenTxs(ps, attached, txs[..k], height, c, keys);
            var r := SeenTxs(ps, attached, txs[..n], height, c, keys);
            && (before.Err? ==> r == before)
            && (before.Ok? ==> r == match SeenTx(ps, attached, txs[k], height, c, keys)
                                    case Err(e) => Err(e)
                                    case Ok(found) => Ok((before.value.0 + found.0, before.value.1 + found.1)))
  {
    assert txs[..n][..k] == txs[..k];
  }

  lemma SeenGoesTo(
      ps: Pools, attached: bool, txs: seq<TxReply>, k: nat, n: nat, height: nat, c: Config, keys: Keys,
      before: Result<Found, Scanner.Error>, r: Result<Found, Scanner.Error>)
    requires n == k + 1 <= |txs| && AddsSeen(before, ps, attached, txs, k, height, c, keys)
    requires before.Err? ==> r == before
    requires before.Ok? ==> r == match SeenTx(ps, attached, txs[k], height, c, keys)
                                 case Err(e) => Err(e)
                                 case Ok(found) => Ok((before.value.0 + found.0, before.value.1 + found.1))
    ensures AddsSeen(r, ps, attached, txs, n, height, c, keys)
  {
    AllSeenNext(ps, attached, txs, k, n, height, c, keys);
    if before.Ok? && r.Err? {
      assert UnseenAt(ps, attached, txs, k, r.error, height, c, keys);
    }
  }

  lemma {:induction false} SeenAdds(
      ps: Pools, attached: bool, txs: seq<TxReply>, n: nat, height: nat, c: Config, keys: Keys)
    requires n <= |txs|
    ensures AddsSeen(SeenTxs(ps, attached, txs[..n], height, c, keys), ps, attached, txs, n, height, c, keys)
  {
    if n == 0 {
      assert txs[..0] == [];
    } else {
      var k := n - 1;
      SeenAdds(ps, attached, txs, k, height, c, keys);
      ScanGoesTo(ps, attached, txs, k, n, height, c, keys);
      SeenGoesTo(ps, attached, txs, k, n, height, c, keys, SeenTxs(ps, attached, txs[..k], height, c, keys),
                 SeenTxs(ps, attached, txs[..n], height, c, keys));
    }
  }

  /** And a block scanned, all of whose transactions are read by the same stores. */
  lemma BlockScanned(ps: Pools, attached: bool, reply: BlockReply, height: nat, c: Config, keys: Keys)
    ensures var r := SeenBlock(ps, attached, reply, height, c, keys);
            && (reply.NoTxids? ==> r == Err(Rpc))
            && (reply.Txids? ==> AddsSeen(r, ps, attached, reply.txs, |reply.txs|, height, c, keys))
  {
    if reply.Txids? {
      assert reply.txs[..|reply.txs|] == reply.txs;
      SeenAdds(ps, attached, reply.txs, |reply.txs|, height, c, keys);
    }
  }

  // ------------------------------------------------------------ one pass

  /** The stores when so many blocks from one on have been fed. */
  function FeedStores(ps: Pools, a: nat, n: nat, feed: Feeder): Pools {
    if n == 0 then ps else feed(FeedStores(ps, a, n - 1, feed), a + (n - 1)).0
  }

  ghost predicate FedBy(ps: Pools, a: nat, rs: seq<Reading>, feed: Feeder) {
    forall i :: 0 <= i < |rs| ==>
      rs[i].height == a + i && feed(FeedStores(ps, a, i, feed), rs[i].height).1 == Ok(rs[i].found)
  }

  lemma {:induction false} FeedRunReads(ps: Pools, a: nat, n: nat, feed: Feeder)
    requires FeedRun(ps, a, n, feed).1.Ok?
    ensures var (after, r) := FeedRun(ps, a, n, feed);
            after == FeedStores(ps, a, n, feed) && |r.value| == n && FedBy(ps, a, r.value, feed)
  {
    if n > 0 {
      FeedRunReads(ps, a, n - 1, feed);
    }
  }

  /** A block fed in a pass, and the reading it gave. */
  ghost predicate FedReading(ps: Pools, a: nat, i: nat, r: Reading, node: Node, c: Config, keys: Keys) {
    && r.height == a + i
    && FeedSpec(FeedStores(ps, a, i, FeedFrom(node, c, keys)), node(r.height), r.height, keys, c.attributions).1
       == Ok(r.found)
  }

  lemma {:induction false} SeenRunReads(a: nat, n: nat, fed: Range, see: Seer)
    requires SeenRun(a, n, fed, see).Ok?
    ensures forall i :: 0 <= i < |SeenRun(a, n, fed, see).value| ==>
              see(SeenRun(a, n, fed, see).value[i].height) == Ok(SeenRun(a, n, fed, see).value[i].found)
  {
    if n > 0 {
      SeenRunReads(a, n - 1, fed, see);
    }
  }

  /** Every reading of a pass is of the block at its height: of feeding it to the stores
      as the blocks before it left them, or of scanning it with the stores as all the
      feeding left them. */
  ghost predicate ReadingIs(
      ps: Pools, after: Pools, attached: bool, tip: nat, node: Node, c: Config, keys: Keys, r: Reading)
  {
    var a := TreeFrom(c, BothSynced(ps));
    if WantedByTrees(ps, attached, tip, c, r.height) then
      a <= r.height && FedReading(ps, a, r.height - a, r, node, c, keys)
    else SeenBlock(after, attached, node(r.height), r.height, c, keys) == Ok(r.found)
  }

  lemma FedReadingIs(
      ps: Pools, attached: bool, tip: nat, node: Node, c: Config, keys: Keys, i: nat)
    requires var r := Fed(ps, attached, tip, node, c, keys).1; r.Ok? && i < |r.value|
    ensures var (after, r) := Fed(ps, attached, tip, node, c, keys);
            ReadingIs(ps, after, attached, tip, node, c, keys, r.value[i])
  {
    var a := TreeFrom(c, BothSynced(ps));
    FedFacts(ps, attached, tip, node, c, keys, i);
    var (after, r) := Fed(ps, attached, tip, node, c, keys);
    FedThere(ps, a, i, r.value[i], node, c, keys);
    WantedIs(ps, attached, tip, c, a + i);
    ReadingIsFed(ps, after, attached, tip, node, c, keys, r.value[i], i);
  }

  lemma FedFacts(ps: Pools, attached: bool, tip: nat, node: Node, c: Config, keys: Keys, i: nat)
    requires var r := Fed(ps, attached, tip, node, c, keys).1; r.Ok? && i < |r.value|
    ensures var a := TreeFrom(c, BothSynced(ps));
            var r := Fed(ps, attached, tip, node, c, keys).1.value[i];
            var feed := FeedFrom(node, c, keys);
            && r.height == a + i && Within(FeedRange(c, ps, attached, tip), a + i)
            && feed(FeedStores(ps, a, i, feed), r.height).1 == Ok(r.found)
  {
    var range := FeedRange(c, ps, attached, tip);
    var a := TreeFrom(c, BothSynced(ps));
    FedHeights(ps, attached, tip, node, c, keys);
    FeedRunReads(ps, a, Span(a, range.value.1), FeedFrom(node, c, keys));
  }

  lemma ReadingIsFed(
      ps: Pools, after: Pools, attached: bool, tip: nat, node: Node, c: Config, keys: Keys, r: Reading, i: nat)
    requires WantedByTrees(ps, attached, tip, c, r.height) && r.height == TreeFrom(c, BothSynced(ps)) + i
    requires FedReading(ps, TreeFrom(c, BothSynced(ps)), i, r, node, c, keys)
    ensures ReadingIs(ps, after, attached, tip, node, c, keys, r)
  {
  }

  lemma FedThere(ps: Pools, a: nat, i: nat, r: Reading, node: Node, c: Config, keys: Keys)
    requires r.height == a + i
    requires FeedFrom(node, c, keys)(FeedStores(ps, a, i, FeedFrom(node, c, keys)), r.height).1 == Ok(r.found)
    ensures FedReading(ps, a, i, r, node, c, keys)
  {
  }

  lemma SeenReadingIs(
      ps: Pools, after: Pools, attached: bool, tip: nat, node: Node, start: nat, n: nat, c: Config, keys: Keys, i: nat)
    requires var r := SeenRun(start, n, FeedRange(c, ps, attached, tip), SeeFrom(after, attached, node, c, keys));
             r.Ok? && i < |r.value|
    ensures var r := SeenRun(start, n, FeedRange(c, ps, attached, tip), SeeFrom(after, attached, node, c, keys));
            ReadingIs(ps, after, attached, tip, node, c, keys, r.value[i])
  {
    var range, see := FeedRange(c, ps, attached, tip), SeeFrom(after, attached, node, c, keys);
    var seen := SeenRunHeights(start, n, range, see);
    SeenRunReads(start, n, range, see);
    WantedIs(ps, attached, tip, c, seen[i].height);
    assert ReadsBlock(seen, seen[i].height);
  }

  lemma EachReadingIs(
      ps: Pools, attached: bool, tip: nat, node: Node, from: nat, c: Config, keys: Keys, i: nat)
    requires ObserveSpec(ps, attached, tip, node, from, c, keys).1.Ok?
    requires i < |ObserveSpec(ps, attached, tip, node, from, c, keys).1.value.1|
    ensures var (after, r) := ObserveSpec(ps, attached, tip, node, from, c, keys);
            ReadingIs(ps, after, attached, tip, node, c, keys, r.value.1[i])
  {
    var start := Max(from, c.fromHeight);
    var end := Reach(c, start, tip);
    var (after, fed) := Fed(ps, attached, tip, node, c, keys);
    if i < |fed.value| {
      FedReadingIs(ps, attached, tip, node, c, keys, i);
    } else {
      SeenReadingIs(ps, after, attached, tip, node, start, Span(start, end), c, keys, i - |fed.value|);
    }
  }
}
