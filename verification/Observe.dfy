/** One pass over the chain (src/shielded.rs, `observe` and `sync_notes`): the note
    trees are fed first, then the rest of the deposit range is scanned. */
module Observe {
  import opened Prelude
  import opened Notes
  import opened Watcher
  import opened Shielded
  import opened Scanner
  import opened FeedRuns
  import Zebra

  type ScanRangeError = Scanner.Error

  datatype Config = Config(
    fromHeight: nat,
    maxBlocks: nat,
    treeLag: nat,
    attributions: map<Hash, AccountId>,
    handedOut: map<nat, AccountId>)

  /** What the node answers for each height during the pass. */
  type Node = nat -> BlockReply

  type Range = Option<(nat, nat)>

  function Max(a: nat, b: nat): nat { if a < b then b else a }

  function Least(a: nat, b: nat): nat { if a < b then a else b }

  /** `PoolStores::synced_to`: the lowest height both trees are complete to. */
  function BothSynced(ps: Pools): Option<nat> {
    if ps.orchard.syncedTo.None? || ps.ironwood.syncedTo.None? then None
    else Some(Least(ps.orchard.syncedTo.value, ps.ironwood.syncedTo.value))
  }

  function TreeFrom(c: Config, synced: Option<nat>): nat {
    Max(if synced.Some? then synced.value + 1 else c.fromHeight, c.fromHeight)
  }

  /** The last height a pass over `[start, ..]` may reach. */
  function Reach(c: Config, start: nat, ceiling: nat): nat {
    Least(ceiling, SatSub(SatAdd(start, c.maxBlocks), 1))
  }

  function FeedRange(c: Config, ps: Pools, attached: bool, tip: nat): Range {
    var start := TreeFrom(c, BothSynced(ps));
    var end := Reach(c, start, SatSub(tip, c.treeLag));
    if attached && start <= end then Some((start, end)) else None
  }

  predicate Within(r: Range, h: nat) {
    r.Some? && r.value.0 <= h <= r.value.1
  }

  // ------------------------------------------------------------ reading blocks

  datatype Reading = Reading(height: nat, found: Found)

  /** Feeding one block, by height. */
  type Feeder = (Pools, nat) -> (Pools, Result<Found, ScanRangeError>)

  /** Scanning one block, by height. */
  type Seer = nat -> Result<Found, ScanRangeError>

  function FeedFrom(node: Node, c: Config, keys: Keys): Feeder {
    (ps: Pools, h: nat) => FeedSpec(ps, node(h), h, keys, c.attributions)
  }

  /** Blocks `a`, `a + 1`, … fed one after another; the first failure stops. */
  function FeedRun(ps: Pools, a: nat, n: nat, feed: Feeder): (Pools, Result<seq<Reading>, ScanRangeError>) {
    if n == 0 then (ps, Ok([])) else
      var (mid, r) := FeedRun(ps, a, n - 1, feed);
      if r.Err? then (mid, r) else
        var (after, f) := feed(mid, a + (n - 1));
        if f.Err? then (after, Err(f.error)) else (after, Ok(r.value + [Reading(a + (n - 1), f.value)]))
  }

  /** A transaction the scan reads without feeding it: the stores still tell our
      own spends, and addresses that were handed out name their depositor. */
  function SeenTx(ps: Pools, attached: bool, t: TxReply, height: nat, c: Config, keys: Keys)
    : Result<Found, ScanRangeError>
  {
    if t.Failed? then Err(Rpc) else
      match Read(t, keys, height)
      case None => Ok(([], []))
      case Some(s) =>
        var spendsOurs := attached && (SpendsKnown(ps.orchard, s.actions, Orchard, keys.nullifier)
                                    || SpendsKnown(ps.ironwood, s.actions, Ironwood, keys.nullifier));
        match ClassifySpec(s.actions, ContextOf(spendsOurs, c.attributions, t.txid, height).(handedOut := c.handedOut))
        case Err(amount) => Err(UnattributableAt(height, amount))
        case Ok(ds) => Ok((ds, s.forced))
  }

  function SeenTxs(ps: Pools, attached: bool, txs: seq<TxReply>, height: nat, c: Config, keys: Keys)
    : Result<Found, ScanRangeError>
  {
    if txs == [] then Ok(([], [])) else
      var n := |txs| - 1;
      var r := SeenTxs(ps, attached, txs[..n], height, c, keys);
      if r.Err? then r else
        match SeenTx(ps, attached, txs[n], height, c, keys)
        case Err(e) => Err(e)
        case Ok((ds, forced)) => Ok((r.value.0 + ds, r.value.1 + forced))
  }

  function SeenBlock(ps: Pools, attached: bool, reply: BlockReply, height: nat, c: Config, keys: Keys)
    : Result<Found, ScanRangeError>
  {
    if reply.NoTxids? then Err(Rpc) else SeenTxs(ps, attached, reply.txs, height, c, keys)
  }

  function SeeFrom(ps: Pools, attached: bool, node: Node, c: Config, keys: Keys): Seer {
    (h: nat) => SeenBlock(ps, attached, node(h), h, c, keys)
  }

  /** Blocks `a`, `a + 1`, … scanned, but for those fed already. */
  function SeenRun(a: nat, n: nat, fed: Range, see: Seer): Result<seq<Reading>, ScanRangeError> {
    if n == 0 then Ok([]) else
      var r := SeenRun(a, n - 1, fed, see);
      if r.Err? || Within(fed, a + (n - 1)) then r else
        match see(a + (n - 1))
        case Err(e) => Err(e)
        case Ok(found) => Ok(r.value + [Reading(a + (n - 1), found)])
  }

  function Span(a: nat, b: nat): nat {
    if a <= b then b - a + 1 else 0
  }

  function Fed(ps: Pools, attached: bool, tip: nat, node: Node, c: Config, keys: Keys)
    : (Pools, Result<seq<Reading>, ScanRangeError>)
  {
    match FeedRange(c, ps, attached, tip)
    case None => (ps, Ok([]))
    case Some((a, b)) => FeedRun(ps, a, Span(a, b), FeedFrom(node, c, keys))
  }

  /** `observe`: the stores after the pass, and the tip it reports with every block
      it read, in the order read. */
  function ObserveSpec(ps: Pools, attached: bool, tip: nat, node: Node, from: nat, c: Config, keys: Keys)
    : (Pools, Result<(nat, seq<Reading>), ScanRangeError>)
  {
    var start := Max(from, c.fromHeight);
    var end := Reach(c, start, tip);
    if end < start then (ps, Ok((Least(tip, end), []))) else
      var (after, fed) := Fed(ps, attached, tip, node, c, keys);
      if fed.Err? then (after, Err(fed.error)) else
        match SeenRun(start, Span(start, end), FeedRange(c, ps, attached, tip), SeeFrom(after, attached, node, c, keys))
        case Err(e) => (after, Err(e))
        case Ok(seen) => (after, Ok((end, fed.value + seen)))
  }

  function Deposits(rs: seq<Reading>): seq<ObservedDeposit> {
    if rs == [] then [] else Deposits(rs[..|rs| - 1]) + rs[|rs| - 1].found.0
  }

  function Forced(rs: seq<Reading>): seq<ForcedSighting> {
    if rs == [] then [] else Forced(rs[..|rs| - 1]) + rs[|rs| - 1].found.1
  }

  // ------------------------------------------------------------ each block once

  lemma {:induction false} FeedRunHeights(ps: Pools, a: nat, n: nat, feed: Feeder)
    requires FeedRun(ps, a, n, feed).1.Ok?
    ensures var rs := FeedRun(ps, a, n, feed).1.value;
            |rs| == n && forall i :: 0 <= i < n ==> rs[i].height == a + i
  {
    if n > 0 {
      FeedRunHeights(ps, a, n - 1, feed);
    }
  }

  ghost predicate ReadsBlock(rs: seq<Reading>, h: nat) {
    exists i :: 0 <= i < |rs| && rs[i].height == h
  }

  /** The heights scanned: each of the range not fed, once. */
  ghost predicate ScanReads(rs: seq<Reading>, a: nat, n: nat, fed: Range) {
    InOrder(rs, a, n) && forall h: nat :: a <= h < a + n ==> ReadsBlock(rs, h) == !Within(fed, h)
  }

  ghost predicate InOrder(rs: seq<Reading>, a: nat, n: nat) {
    && (forall i :: 0 <= i < |rs| ==> a <= rs[i].height < a + n)
    && (forall i, j :: 0 <= i < j < |rs| ==> rs[i].height < rs[j].height)
  }

  lemma ReadsMore(rs: seq<Reading>, r: Reading, h: nat)
    ensures ReadsBlock(rs + [r], h) <==> ReadsBlock(rs, h) || h == r.height
  {
    if ReadsBlock(rs, h) {
      var i :| 0 <= i < |rs| && rs[i].height == h;
      assert (rs + [r])[i].height == h;
    } else if h == r.height {
      assert (rs + [r])[|rs|].height == h;
    }
  }

  lemma ScanReadsNext(rs: seq<Reading>, a: nat, n: nat, fed: Range, found: Found)
    requires ScanReads(rs, a, n, fed) && !Within(fed, a + n)
    ensures ScanReads(rs + [Reading(a + n, found)], a, n + 1, fed)
  {
    forall h: nat | a <= h < a + n + 1 ensures ReadsBlock(rs + [Reading(a + n, found)], h) == !Within(fed, h) {
      ReadsMore(rs, Reading(a + n, found), h);
    }
  }

  lemma ScanReadsSkip(rs: seq<Reading>, a: nat, n: nat, fed: Range)
    requires ScanReads(rs, a, n, fed) && Within(fed, a + n)
    ensures ScanReads(rs, a, n + 1, fed)
  {
  }

  lemma SeenRunNext(a: nat, n: nat, fed: Range, see: Seer, rs: seq<Reading>)
    requires SeenRun(a, n, fed, see) == Ok(rs) && SeenRun(a, n + 1, fed, see).Ok?
    ensures SeenRun(a, n + 1, fed, see)
         == if Within(fed, a + n) then Ok(rs)
            else Ok(rs + [Reading(a + n, if see(a + n).Ok? then see(a + n).value else ([], []))])
  {
  }

  lemma SeenRunHeights(a: nat, n: nat, fed: Range, see: Seer) returns (rs: seq<Reading>)
    requires SeenRun(a, n, fed, see).Ok?
    ensures SeenRun(a, n, fed, see) == Ok(rs) && ScanReads(rs, a, n, fed)
  {
    rs := [];
    var k := 0;
    while k < n
      invariant 0 <= k <= n && SeenRun(a, k, fed, see) == Ok(rs) && ScanReads(rs, a, k, fed)
    {
      SeenFailureIsFinal(a, k + 1, n, fed, see);
      SeenRunNext(a, k, fed, see, rs);
      if Within(fed, a + k) {
        ScanReadsSkip(rs, a, k, fed);
      } else {
        var found := if see(a + k).Ok? then see(a + k).value else ([], []);
        ScanReadsNext(rs, a, k, fed, found);
        rs := rs + [Reading(a + k, found)];
      }
      k := k + 1;
    }
  }

  ghost predicate OnceEach(rs: seq<Reading>) {
    forall i, j :: 0 <= i < j < |rs| ==> rs[i].height != rs[j].height
  }

  /** The blocks fed are a run without a gap from where the trees stopped. */
  ghost predicate Contiguous(rs: seq<Reading>, a: nat) {
    forall i :: 0 <= i < |rs| ==> rs[i].height == a + i
  }

  lemma FedHeights(ps: Pools, attached: bool, tip: nat, node: Node, c: Config, keys: Keys)
    requires Fed(ps, attached, tip, node, c, keys).1.Ok?
    ensures var rs := Fed(ps, attached, tip, node, c, keys).1.value;
            && Contiguous(rs, TreeFrom(c, BothSynced(ps)))
            && (forall h: nat :: Within(FeedRange(c, ps, attached, tip), h)
                              == (TreeFrom(c, BothSynced(ps)) <= h < TreeFrom(c, BothSynced(ps)) + |rs|))
  {
    var range := FeedRange(c, ps, attached, tip);
    if range.Some? {
      FeedRunHeights(ps, range.value.0, Span(range.value.0, range.value.1), FeedFrom(node, c, keys));
    }
  }

  /** In a pass that succeeds every height of the deposit range is read exactly
      once, whether it was fed or scanned; nothing at all is read twice; and the
      tip reported is the last height of the range, never past the chain's. */
  lemma EachHeightReadOnce(ps: Pools, attached: bool, tip: nat, node: Node, from: nat, c: Config, keys: Keys)
    requires ObserveSpec(ps, attached, tip, node, from, c, keys).1.Ok?
    ensures var (reported, rs) := ObserveSpec(ps, attached, tip, node, from, c, keys).1.value;
            && reported <= tip
            && OnceEach(rs)
            && (forall h: nat :: Max(from, c.fromHeight) <= h <= reported ==> ReadsBlock(rs, h))
  {
    var start := Max(from, c.fromHeight);
    var end := Reach(c, start, tip);
    if start <= end {
      var (after, fed) := Fed(ps, attached, tip, node, c, keys);
      var range := FeedRange(c, ps, attached, tip);
      FedHeights(ps, attached, tip, node, c, keys);
      var seen := SeenRunHeights(start, Span(start, end), range, SeeFrom(after, attached, node, c, keys));
      FedThenSeen(fed.value, seen, TreeFrom(c, BothSynced(ps)), start, Span(start, end), range);
    }
  }

  lemma FedThenSeen(fed: seq<Reading>, seen: seq<Reading>, a: nat, start: nat, n: nat, range: Range)
    requires Contiguous(fed, a) && ScanReads(seen, start, n, range)
    requires forall h: nat :: Within(range, h) == (a <= h < a + |fed|)
    ensures OnceEach(fed + seen)
    ensures forall h: nat :: start <= h < start + n ==> ReadsBlock(fed + seen, h)
  {
    var rs := fed + seen;
    forall i, j | 0 <= i < j < |rs| ensures rs[i].height != rs[j].height {
      if i < |fed| <= j {
        assert Within(range, a + i) && ReadsBlock(seen, seen[j - |fed|].height);
      }
    }
    forall h: nat | start <= h < start + n ensures ReadsBlock(rs, h) {
      if Within(range, h) {
        assert rs[h - a].height == h;
      } else {
        assert ReadsBlock(seen, h);
        var i :| 0 <= i < |seen| && seen[i].height == h;
        assert rs[|fed| + i].height == h;
      }
    }
  }

  // ------------------------------------------------------------ which blocks

  /** The last of so many heights from one on, as far as heights go in a u64. */
  function LastOf(start: nat, count: nat): nat {
    var past := if start + count <= 0xFFFF_FFFF_FFFF_FFFF then start + count else 0xFFFF_FFFF_FFFF_FFFF;
    if past > 0 then past - 1 else 0
  }

  /** The heights the trees want: after the one both are complete to, but not below
      the first height configured; as many as a batch holds, but, the first block of all
      aside, not within the lag. */
  predicate WantedByTrees(ps: Pools, attached: bool, tip: nat, c: Config, h: nat) {
    var o, i := ps.orchard.syncedTo, ps.ironwood.syncedTo;
    var next := if o.None? || i.None? then c.fromHeight
                else if o.value <= i.value then o.value + 1 else i.value + 1;
    var first := if next > c.fromHeight then next else c.fromHeight;
    attached && first <= h <= LastOf(first, c.maxBlocks) && (h + c.treeLag <= tip || h == 0)
  }

  lemma WantedIs(ps: Pools, attached: bool, tip: nat, c: Config, h: nat)
    ensures Within(FeedRange(c, ps, attached, tip), h) <==> WantedByTrees(ps, attached, tip, c, h)
  {
  }

  lemma FedOrSeen(fed: seq<Reading>, seen: seq<Reading>, a: nat, start: nat, n: nat, range: Range, h: nat)
    requires Contiguous(fed, a) && ScanReads(seen, start, n, range)
    requires forall h: nat :: Within(range, h) == (a <= h < a + |fed|)
    ensures ReadsBlock(fed + seen, h) <==> Within(range, h) || start <= h < start + n
  {
    var rs := fed + seen;
    FedThenSeen(fed, seen, a, start, n, range);
    if Within(range, h) {
      assert rs[h - a].height == h;
    }
    if ReadsBlock(rs, h) {
      var i :| 0 <= i < |rs| && rs[i].height == h;
      if i < |fed| {
        assert rs[i] == fed[i];
      } else {
        assert rs[i] == seen[i - |fed|];
      }
    }
  }

  /** A pass reports the last height of as many as a batch holds from the first wanted
      on, or the tip; and reads just those and, if there are any, the blocks the
      trees want. */
  lemma PassReaches(
      ps: Pools, attached: bool, tip: nat, node: Node, from: nat, c: Config, keys: Keys, h: nat)
    requires ObserveSpec(ps, attached, tip, node, from, c, keys).1.Ok?
    ensures var (reported, rs) := ObserveSpec(ps, attached, tip, node, from, c, keys).1.value;
            var start := if from < c.fromHeight then c.fromHeight else from;
            && reported == (if LastOf(start, c.maxBlocks) < tip then LastOf(start, c.maxBlocks) else tip)
            && (ReadsBlock(rs, h) <==>
                  start <= reported && (start <= h <= reported || WantedByTrees(ps, attached, tip, c, h)))
  {
    var start := Max(from, c.fromHeight);
    var end := Reach(c, start, tip);
    if start <= end {
      var (after, fed) := Fed(ps, attached, tip, node, c, keys);
      var range := FeedRange(c, ps, attached, tip);
      FedHeights(ps, attached, tip, node, c, keys);
      var seen := SeenRunHeights(start, Span(start, end), range, SeeFrom(after, attached, node, c, keys));
      FedOrSeen(fed.value, seen, TreeFrom(c, BothSynced(ps)), start, Span(start, end), range, h);
      WantedIs(ps, attached, tip, c, h);
    }
  }

  // ------------------------------------------------------------ each deposit once

  ghost predicate AllAt(ds: seq<ObservedDeposit>, h: nat) {
    forall d :: d in ds ==> d.height == h
  }

  ghost predicate OwnHeights(rs: seq<Reading>) {
    forall i :: 0 <= i < |rs| ==> AllAt(rs[i].found.0, rs[i].height)
  }

  lemma {:induction false} BodyAtHeight(
      ps: Pools, txs: seq<TxReply>, h: nat, keys: Keys, attributions: map<Hash, AccountId>)
    requires BodySpec(ps, txs, h, keys, attributions).1.Ok?
    ensures AllAt(BodySpec(ps, txs, h, keys, attributions).1.value.0, h)
  {
    if txs != [] {
      var n := |txs| - 1;
      BodyAtHeight(ps, txs[..n], h, keys, attributions);
      OutcomeAtHeight(BodySpec(ps, txs[..n], h, keys, attributions).0, txs[n], h, keys, attributions);
    }
  }

  lemma OutcomeAtHeight(ps: Pools, t: TxReply, h: nat, keys: Keys, attributions: map<Hash, AccountId>)
    requires TxOutcome(ps, t, h, keys, attributions).Ok?
    ensures AllAt(TxOutcome(ps, t, h, keys, attributions).value.0, h)
  {
    var s := Read(t, keys, h);
    if s.Some? {
      var spendsOurs := SpendsKnown(ps.orchard, s.value.actions, Orchard, keys.nullifier)
                     || SpendsKnown(ps.ironwood, s.value.actions, Ironwood, keys.nullifier);
      DepositsNameSomebody(s.value.actions, ContextOf(spendsOurs, attributions, t.txid, h));
    }
  }

  lemma {:induction false} FeedRunAtHeights(ps: Pools, a: nat, n: nat, feed: Feeder)
    requires forall qs: Pools, h: nat :: feed(qs, h).1.Ok? ==> AllAt(feed(qs, h).1.value.0, h)
    requires FeedRun(ps, a, n, feed).1.Ok?
    ensures OwnHeights(FeedRun(ps, a, n, feed).1.value)
  {
    if n > 0 {
      FeedRunAtHeights(ps, a, n - 1, feed);
    }
  }

  lemma FeedAtHeight(ps: Pools, reply: BlockReply, h: nat, keys: Keys, attributions: map<Hash, AccountId>)
    requires FeedSpec(ps, reply, h, keys, attributions).1.Ok?
    ensures AllAt(FeedSpec(ps, reply, h, keys, attributions).1.value.0, h)
  {
    if !Done(ps, h) {
      BodyAtHeight(BeginBoth(ps, h), reply.txs, h, keys, attributions);
    }
  }

  lemma SeenTxAtHeight(ps: Pools, attached: bool, t: TxReply, h: nat, c: Config, keys: Keys)
    requires SeenTx(ps, attached, t, h, c, keys).Ok?
    ensures AllAt(SeenTx(ps, attached, t, h, c, keys).value.0, h)
  {
    var s := Read(t, keys, h);
    if s.Some? {
      var spendsOurs := attached && (SpendsKnown(ps.orchard, s.value.actions, Orchard, keys.nullifier)
                                  || SpendsKnown(ps.ironwood, s.value.actions, Ironwood, keys.nullifier));
      DepositsNameSomebody(s.value.actions,
                           ContextOf(spendsOurs, c.attributions, t.txid, h).(handedOut := c.handedOut));
    }
  }

  lemma {:induction false} SeenTxsAtHeight(ps: Pools, attached: bool, txs: seq<TxReply>, h: nat, c: Config, keys: Keys)
    requires SeenTxs(ps, attached, txs, h, c, keys).Ok?
    ensures AllAt(SeenTxs(ps, attached, txs, h, c, keys).value.0, h)
  {
    if txs != [] {
      SeenTxsAtHeight(ps, attached, txs[..|txs| - 1], h, c, keys);
      SeenTxAtHeight(ps, attached, txs[|txs| - 1], h, c, keys);
    }
  }

  lemma {:induction false} SeenRunAtHeights(a: nat, n: nat, fed: Range, see: Seer)
    requires forall h: nat :: see(h).Ok? ==> AllAt(see(h).value.0, h)
    requires SeenRun(a, n, fed, see).Ok?
    ensures OwnHeights(SeenRun(a, n, fed, see).value)
  {
    if n > 0 {
      SeenRunAtHeights(a, n - 1, fed, see);
    }
  }

  lemma FeedsAtHeights(node: Node, c: Config, keys: Keys)
    ensures forall qs: Pools, h: nat ::
              FeedFrom(node, c, keys)(qs, h).1.Ok? ==> AllAt(FeedFrom(node, c, keys)(qs, h).1.value.0, h)
  {
    forall qs: Pools, h: nat | FeedFrom(node, c, keys)(qs, h).1.Ok?
      ensures AllAt(FeedFrom(node, c, keys)(qs, h).1.value.0, h)
    {
      FeedAtHeight(qs, node(h), h, keys, c.attributions);
    }
  }

  lemma SeesAtHeights(ps: Pools, attached: bool, node: Node, c: Config, keys: Keys)
    ensures forall h: nat :: SeeFrom(ps, attached, node, c, keys)(h).Ok? ==>
              AllAt(SeeFrom(ps, attached, node, c, keys)(h).value.0, h)
  {
    forall h: nat | SeeFrom(ps, attached, node, c, keys)(h).Ok?
      ensures AllAt(SeeFrom(ps, attached, node, c, keys)(h).value.0, h)
    {
      SeenTxsAtHeight(ps, attached, TxsOf(node(h)), h, c, keys);
    }
  }

  lemma {:induction false} AtHeightJoins(a: seq<ObservedDeposit>, b: seq<ObservedDeposit>, h: nat)
    ensures Zebra.AtHeight(a + b, h) == Zebra.AtHeight(a, h) + Zebra.AtHeight(b, h)
  {
    if b == [] {
      assert a + b == a;
    } else {
      var n := |b| - 1;
      assert (a + b)[..|a| + n] == a + b[..n];
      AtHeightJoins(a, b[..n], h);
    }
  }

  lemma {:induction false} AtHeightOfBlock(ds: seq<ObservedDeposit>, own: nat, h: nat)
    requires AllAt(ds, own)
    ensures Zebra.AtHeight(ds, h) == if own == h then ds else []
  {
    if ds != [] {
      AtHeightOfBlock(ds[..|ds| - 1], own, h);
      assert ds[|ds| - 1] in ds;
    }
  }

  /** Filing every deposit by height gives back, at each height read, the one
      reading of that height. */
  lemma {:induction false} FiledByBlock(rs: seq<Reading>, h: nat)
    requires OnceEach(rs) && OwnHeights(rs)
    ensures forall i :: 0 <= i < |rs| && rs[i].height == h ==> Zebra.AtHeight(Deposits(rs), h) == rs[i].found.0
    ensures !ReadsBlock(rs, h) ==> Zebra.AtHeight(Deposits(rs), h) == []
  {
    if rs != [] {
      var n := |rs| - 1;
      var front, last := rs[..n], rs[n];
      FiledByBlock(front, h);
      AtHeightJoins(Deposits(front), last.found.0, h);
      AtHeightOfBlock(last.found.0, last.height, h);
      assert forall i :: 0 <= i < n ==> front[i] == rs[i];
      if last.height == h {
        assert !ReadsBlock(front, h);
      }
    }
  }

  /** The snapshot a pass answers with shows, at every height of the deposit
      range, exactly the deposits of one reading of that block. */
  lemma NoDepositTwice(ps: Pools, attached: bool, tip: nat, node: Node, from: nat, c: Config, keys: Keys, i: nat)
    requires ObserveSpec(ps, attached, tip, node, from, c, keys).1.Ok?
    requires i < |ObserveSpec(ps, attached, tip, node, from, c, keys).1.value.1|
    ensures var rs := ObserveSpec(ps, attached, tip, node, from, c, keys).1.value.1;
            Zebra.AtHeight(Deposits(rs), rs[i].height) == rs[i].found.0
  {
    var start := Max(from, c.fromHeight);
    var end := Reach(c, start, tip);
    EachHeightReadOnce(ps, attached, tip, node, from, c, keys);
    var (after, fed) := Fed(ps, attached, tip, node, c, keys);
    var range := FeedRange(c, ps, attached, tip);
    FeedsAtHeights(node, c, keys);
    if range.Some? {
      FeedRunAtHeights(ps, range.value.0, Span(range.value.0, range.value.1), FeedFrom(node, c, keys));
    }
    SeesAtHeights(after, attached, node, c, keys);
    SeenRunAtHeights(start, Span(start, end), range, SeeFrom(after, attached, node, c, keys));
    var rs := ObserveSpec(ps, attached, tip, node, from, c, keys).1.value.1;
    FiledByBlock(rs, rs[i].height);
  }

  // ------------------------------------------------------------ the trees

  /** The commitments of blocks `a`, `a + 1`, … */
  function CommitmentsFrom(a: nat, n: nat, node: Node, p: ValuePool): seq<Hash> {
    if n == 0 then [] else CommitmentsFrom(a, n - 1, node, p) + BlockCommitments(TxsOf(node(a + (n - 1))), p)
  }

  /** What feeding a block above where the trees stand comes to, when it succeeds. */
  ghost predicate Extends(ps: Pools, qs: Pools, h: nat, node: Node, p: ValuePool, commit: CommitmentOf) {
    && Together(qs, commit) && qs.orchard.syncedTo == Some(h)
    && Pick(qs, p).tree.leaves == Cap(Pick(ps, p).tree.leaves + BlockCommitments(TxsOf(node(h)), p))
  }

  predicate Beyond(ps: Pools, h: nat) {
    Past(ps.orchard.syncedTo, h)
  }

  ghost predicate FeedsWhole(feed: Feeder, node: Node, p: ValuePool, commit: CommitmentOf) {
    forall ps: Pools, h: nat {:trigger Extends(ps, feed(ps, h).0, h, node, p, commit)} ::
      Together(ps, commit) && Beyond(ps, h) && h < HEIGHTS && feed(ps, h).1.Ok? ==>
        Extends(ps, feed(ps, h).0, h, node, p, commit)
  }

  /** `n` blocks from `a` on have been fed. */
  ghost predicate Stands(ps: Pools, end: Pools, a: nat, n: nat, node: Node, p: ValuePool, commit: CommitmentOf) {
    && Together(end, commit)
    && end.orchard.syncedTo == (if n == 0 then ps.orchard.syncedTo else Some(a + (n - 1)))
    && Pick(end, p).tree.leaves == Cap(Pick(ps, p).tree.leaves + CommitmentsFrom(a, n, node, p))
  }

  lemma StandsNext(
      ps: Pools, mid: Pools, end: Pools, a: nat, n: nat, node: Node, p: ValuePool, commit: CommitmentOf)
    requires Stands(ps, mid, a, n, node, p, commit) && Extends(mid, end, a + n, node, p, commit)
    ensures Stands(ps, end, a, n + 1, node, p, commit)
  {
    CapThen(Pick(ps, p).tree.leaves, CommitmentsFrom(a, n, node, p), BlockCommitments(TxsOf(node(a + n)), p));
  }

  lemma FeedRunLast(ps: Pools, a: nat, n: nat, feed: Feeder)
    requires n > 0 && FeedRun(ps, a, n, feed).1.Ok?
    ensures FeedRun(ps, a, n - 1, feed).1.Ok?
    ensures var mid := FeedRun(ps, a, n - 1, feed).0;
            feed(mid, a + (n - 1)).1.Ok? && FeedRun(ps, a, n, feed).0 == feed(mid, a + (n - 1)).0
  {
  }

  lemma OneFedWhole(mid: Pools, h: nat, node: Node, feed: Feeder, p: ValuePool, commit: CommitmentOf)
    requires FeedsWhole(feed, node, p, commit)
    requires Together(mid, commit) && Beyond(mid, h) && h < HEIGHTS && feed(mid, h).1.Ok?
    ensures Extends(mid, feed(mid, h).0, h, node, p, commit)
  {
  }

  /** One block more. */
  lemma StandsMore(ps: Pools, mid: Pools, a: nat, n: nat, node: Node, feed: Feeder, p: ValuePool, commit: CommitmentOf)
    requires FeedsWhole(feed, node, p, commit) && Beyond(ps, a) && a + n < HEIGHTS
    requires Stands(ps, mid, a, n, node, p, commit) && feed(mid, a + n).1.Ok?
    ensures Stands(ps, feed(mid, a + n).0, a, n + 1, node, p, commit)
  {
    OneFedWhole(mid, a + n, node, feed, p, commit);
    StandsNext(ps, mid, feed(mid, a + n).0, a, n, node, p, commit);
  }

  lemma StandsFirst(ps: Pools, a: nat, node: Node, p: ValuePool, commit: CommitmentOf)
    requires Together(ps, commit)
    ensures Stands(ps, ps, a, 0, node, p, commit)
  {
    assert Pick(ps, p).tree.leaves + [] == Pick(ps, p).tree.leaves;
  }

  lemma {:induction false} FeedRunExtends(
      ps: Pools, a: nat, n: nat, node: Node, feed: Feeder, p: ValuePool, commit: CommitmentOf)
    requires FeedsWhole(feed, node, p, commit) && Together(ps, commit) && Beyond(ps, a) && a + n <= HEIGHTS
    requires FeedRun(ps, a, n, feed).1.Ok?
    ensures Stands(ps, FeedRun(ps, a, n, feed).0, a, n, node, p, commit)
  {
    if n == 0 {
      StandsFirst(ps, a, node, p, commit);
    } else {
      FeedRunLast(ps, a, n, feed);
      FeedRunExtends(ps, a, n - 1, node, feed, p, commit);
      StandsMore(ps, FeedRun(ps, a, n - 1, feed).0, a, n - 1, node, feed, p, commit);
    }
  }

  lemma StandsAt(ps: Pools, end: Pools, a: nat, b: nat, node: Node, p: ValuePool, commit: CommitmentOf)
    requires a <= b && Stands(ps, end, a, Span(a, b), node, p, commit)
    ensures Pick(end, p).tree.leaves == Cap(Pick(ps, p).tree.leaves + CommitmentsFrom(a, b - a + 1, node, p))
    ensures BothSynced(end) == Some(b)
  {
  }

  lemma FeedingIsWhole(node: Node, c: Config, keys: Keys, p: ValuePool, commit: CommitmentOf)
    requires forall h: nat :: AllHonest(TxsOf(node(h)), commit)
    ensures FeedsWhole(FeedFrom(node, c, keys), node, p, commit)
  {
    forall ps: Pools, h: nat |
      Together(ps, commit) && Beyond(ps, h) && h < HEIGHTS && FeedFrom(node, c, keys)(ps, h).1.Ok?
      ensures Extends(ps, FeedFrom(node, c, keys)(ps, h).0, h, node, p, commit)
    {
      FeedingOneBlock(ps, h, node, c, keys, p, commit);
    }
  }

  lemma FeedingOneBlock(ps: Pools, h: nat, node: Node, c: Config, keys: Keys, p: ValuePool, commit: CommitmentOf)
    requires AllHonest(TxsOf(node(h)), commit) && Together(ps, commit) && Beyond(ps, h) && h < HEIGHTS
    requires FeedFrom(node, c, keys)(ps, h).1.Ok?
    ensures Extends(ps, FeedFrom(node, c, keys)(ps, h).0, h, node, p, commit)
  {
    var op := Feed(h, node(h), c.attributions);
    EachStep(ps, op, p, keys, commit);
    StepTogether(ps, op, keys, commit);
    CommitmentsOfOne(Block(h, TxsOf(node(h))), p);
  }

  /** A pass that succeeds leaves each tree as it was, followed by the commitments
      of every block of the range fed, none skipped and none twice, and both
      trees standing at its end. The end is the lagged ceiling, or short of it by
      the batch bound. */
  lemma TreesFed(
      ps: Pools, tip: nat, node: Node, from: nat, c: Config, keys: Keys, p: ValuePool, commit: CommitmentOf)
    requires Together(ps, commit) && tip < HEIGHTS && forall h: nat :: AllHonest(TxsOf(node(h)), commit)
    requires ObserveSpec(ps, true, tip, node, from, c, keys).1.Ok?
    requires FeedRange(c, ps, true, tip).Some? && Max(from, c.fromHeight) <= Reach(c, Max(from, c.fromHeight), tip)
    ensures var (a, b) := FeedRange(c, ps, true, tip).value;
            var end := ObserveSpec(ps, true, tip, node, from, c, keys).0;
            && a == TreeFrom(c, BothSynced(ps)) && a <= b == Reach(c, a, SatSub(tip, c.treeLag))
            && Pick(end, p).tree.leaves == Cap(Pick(ps, p).tree.leaves + CommitmentsFrom(a, b - a + 1, node, p))
            && BothSynced(end) == Some(b)
  {
    var (a, b) := FeedRange(c, ps, true, tip).value;
    FeedsUpTo(ps, tip, node, from, c, keys);
    FeedingIsWhole(node, c, keys, p, commit);
    FeedRunExtends(ps, a, Span(a, b), node, FeedFrom(node, c, keys), p, commit);
    StandsAt(ps, FeedRun(ps, a, Span(a, b), FeedFrom(node, c, keys)).0, a, b, node, p, commit);
  }

  /** The loop over the trees' range is what moves the stores. */
  lemma FeedsUpTo(ps: Pools, tip: nat, node: Node, from: nat, c: Config, keys: Keys)
    requires ObserveSpec(ps, true, tip, node, from, c, keys).1.Ok?
    requires FeedRange(c, ps, true, tip).Some? && Max(from, c.fromHeight) <= Reach(c, Max(from, c.fromHeight), tip)
    ensures var (a, b) := FeedRange(c, ps, true, tip).value;
            && a <= b <= tip && (InStep(ps) ==> Beyond(ps, a))
            && FeedRun(ps, a, Span(a, b), FeedFrom(node, c, keys)).1.Ok?
            && ObserveSpec(ps, true, tip, node, from, c, keys).0
               == FeedRun(ps, a, Span(a, b), FeedFrom(node, c, keys)).0
  {
  }

  // ------------------------------------------------------------ the methods

  lemma FeedRunNext(
      ps: Pools, a: nat, n: nat, feed: Feeder, mid: Pools, rs: seq<Reading>, after: Pools,
      f: Result<Found, ScanRangeError>)
    requires FeedRun(ps, a, n, feed) == (mid, Ok(rs)) && feed(mid, a + n) == (after, f)
    ensures FeedRun(ps, a, n + 1, feed) == (after, if f.Err? then Err(f.error) else Ok(rs + [Reading(a + n, f.value)]))
  {
  }

  method FeedOne(o: NoteStore, i: NoteStore, h: nat, node: Node, c: Config, keys: Keys)
    returns (f: Result<Found, ScanRangeError>)
    requires o != i
    modifies o, i
    ensures FeedFrom(node, c, keys)(old(Both(o, i)), h) == (Both(o, i), f)
  {
    f := FeedBlock(o, i, node(h), h, keys, c.attributions);
  }

  /** One turn of the loop over the blocks fed. */
  method FeedNext(
      o: NoteStore, i: NoteStore, a: nat, n: nat, rs: seq<Reading>, node: Node, c: Config, keys: Keys, ghost ps: Pools)
    returns (r: Result<seq<Reading>, ScanRangeError>)
    requires o != i && FeedRun(ps, a, n, FeedFrom(node, c, keys)) == (Both(o, i), Ok(rs))
    modifies o, i
    ensures FeedRun(ps, a, n + 1, FeedFrom(node, c, keys)) == (Both(o, i), r)
  {
    ghost var mid := Both(o, i);
    var f := FeedOne(o, i, a + n, node, c, keys);
    FeedRunNext(ps, a, n, FeedFrom(node, c, keys), mid, rs, Both(o, i), f);
    r := if f.Err? then Err(f.error) else Ok(rs + [Reading(a + n, f.value)]);
  }

  /** The loop over the blocks fed to the trees. */
  method FeedBlocks(o: NoteStore, i: NoteStore, a: nat, b: nat, node: Node, c: Config, keys: Keys)
    returns (r: Result<seq<Reading>, ScanRangeError>)
    requires o != i
    modifies o, i
    ensures FeedRun(old(Both(o, i)), a, Span(a, b), FeedFrom(node, c, keys)) == (Both(o, i), r)
  {
    r := Ok([]);
    var n := 0;
    ghost var ps := Both(o, i);
    while a + n <= b
      invariant 0 <= n <= Span(a, b) && r.Ok?
      invariant FeedRun(ps, a, n, FeedFrom(node, c, keys)) == (Both(o, i), r)
    {
      r := FeedNext(o, i, a, n, r.value, node, c, keys, ps);
      FailureIsFinal(ps, a, n + 1, Span(a, b), FeedFrom(node, c, keys));
      if r.Err? {
        return;
      }
      n := n + 1;
    }
  }

  lemma {:induction false} FailureIsFinal(ps: Pools, a: nat, k: nat, n: nat, feed: Feeder)
    requires k <= n
    ensures FeedRun(ps, a, k, feed).1.Err? ==> FeedRun(ps, a, n, feed) == FeedRun(ps, a, k, feed)
  {
    if k < n {
      FailureIsFinal(ps, a, k, n - 1, feed);
    }
  }

  lemma SeenNext(a: nat, n: nat, fed: Range, see: Seer, rs: seq<Reading>)
    requires SeenRun(a, n, fed, see) == Ok(rs)
    ensures SeenRun(a, n + 1, fed, see)
         == if Within(fed, a + n) then Ok(rs)
            else if see(a + n).Err? then Err(see(a + n).error) else Ok(rs + [Reading(a + n, see(a + n).value)])
  {
  }

  lemma {:induction false} SeenFailureIsFinal(a: nat, k: nat, n: nat, fed: Range, see: Seer)
    requires k <= n
    ensures SeenRun(a, k, fed, see).Err? ==> SeenRun(a, n, fed, see) == SeenRun(a, k, fed, see)
  {
    if k < n {
      SeenFailureIsFinal(a, k, n - 1, fed, see);
    }
  }

  lemma {:induction false} SeenTxsFailure(
      ps: Pools, attached: bool, txs: seq<TxReply>, k: nat, height: nat, c: Config, keys: Keys)
    requires k <= |txs|
    ensures var front := SeenTxs(ps, attached, txs[..k], height, c, keys);
            front.Err? ==> SeenTxs(ps, attached, txs, height, c, keys) == front
    decreases |txs| - k
  {
    if k < |txs| {
      assert txs[..k + 1][..k] == txs[..k];
      SeenTxsFailure(ps, attached, txs, k + 1, height, c, keys);
    } else {
      assert txs[..k] == txs;
    }
  }

  /** One turn of the loop over a scanned block's transactions. */
  method ScanTx(o: NoteStore, i: NoteStore, attached: bool, t: TxReply, height: nat, c: Config, keys: Keys)
    returns (r: Result<Found, ScanRangeError>)
    ensures r == SeenTx(Both(o, i), attached, t, height, c, keys)
  {
    if t.Failed? {
      return Err(Rpc);
    }
    if t.Unreadable? {
      return Ok(([], []));
    }
    var scan := Scan(t.actions, keys, t.txid, height, map[], true);
    if scan.Err? {
      return Ok(([], []));
    }
    var spendsOurs := false;
    if attached {
      spendsOurs := AnyKnown(o, scan.value.actions, Orchard, keys);
      if !spendsOurs {
        spendsOurs := AnyKnown(i, scan.value.actions, Ironwood, keys);
      }
    }
    var ds := ClassifyAddressed(scan.value.actions,
                                ContextOf(spendsOurs, c.attributions, t.txid, height).(handedOut := c.handedOut));
    if ds.Err? {
      return Err(UnattributableAt(height, ds.error));
    }
    r := Ok((ds.value, scan.value.forced));
  }

  method ScanTxs(o: NoteStore, i: NoteStore, attached: bool, txs: seq<TxReply>, height: nat, c: Config, keys: Keys)
    returns (r: Result<Found, ScanRangeError>)
    ensures r == SeenTxs(Both(o, i), attached, txs, height, c, keys)
  {
    var deposits: seq<ObservedDeposit> := [];
    var forced: seq<ForcedSighting> := [];
    var k := 0;
    while k < |txs|
      invariant 0 <= k <= |txs|
      invariant SeenTxs(Both(o, i), attached, txs[..k], height, c, keys) == Ok((deposits, forced))
    {
      assert txs[..k + 1][..k] == txs[..k];
      SeenTxsFailure(Both(o, i), attached, txs, k + 1, height, c, keys);
      var one := ScanTx(o, i, attached, txs[k], height, c, keys);
      if one.Err? {
        return one;
      }
      deposits := deposits + one.value.0;
      forced := forced + one.value.1;
      k := k + 1;
    }
    assert txs[..k] == txs;
    r := Ok((deposits, forced));
  }

  /** The loop over the deposit range, past what was fed. */
  method ScanBlocks(
      o: NoteStore, i: NoteStore, attached: bool, a: nat, b: nat, fed: Range, node: Node, c: Config, keys: Keys)
    returns (r: Result<seq<Reading>, ScanRangeError>)
    ensures r == SeenRun(a, Span(a, b), fed, SeeFrom(Both(o, i), attached, node, c, keys))
  {
    var rs: seq<Reading> := [];
    var n := 0;
    ghost var see := SeeFrom(Both(o, i), attached, node, c, keys);
    while a + n <= b
      invariant 0 <= n <= Span(a, b)
      invariant SeenRun(a, n, fed, see) == Ok(rs)
    {
      var h := a + n;
      SeenNext(a, n, fed, see, rs);
      SeenFailureIsFinal(a, n + 1, Span(a, b), fed, see);
      n := n + 1;
      if fed.Some? && fed.value.0 <= h && h <= fed.value.1 {
        continue;
      }
      var reply := node(h);
      if reply.NoTxids? {
        return Err(Rpc);
      }
      var found := ScanTxs(o, i, attached, reply.txs, h, c, keys);
      if found.Err? {
        return Err(found.error);
      }
      rs := rs + [Reading(h, found.value)];
    }
    r := Ok(rs);
  }

  /** Feeding the blocks the trees are to catch up with, if there are any. */
  method FeedTrees(o: NoteStore, i: NoteStore, attached: bool, tip: nat, node: Node, c: Config, keys: Keys)
    returns (r: Result<seq<Reading>, ScanRangeError>, fed: Range)
    requires o != i
    modifies o, i
    ensures fed == FeedRange(c, old(Both(o, i)), attached, tip)
    ensures (Both(o, i), r) == Fed(old(Both(o, i)), attached, tip, node, c, keys)
  {
    if !attached {
      return Ok([]), None;
    }
    var synced := if o.syncedTo.None? || i.syncedTo.None? then None
      else Some(if o.syncedTo.value < i.syncedTo.value then o.syncedTo.value else i.syncedTo.value);
    var treeFrom := TreeFrom(c, synced);
    var treeTo := Reach(c, treeFrom, SatSub(tip, c.treeLag));
    if treeTo < treeFrom {
      return Ok([]), None;
    }
    r := FeedBlocks(o, i, treeFrom, treeTo, node, c, keys);
    fed := Some((treeFrom, treeTo));
  }

  /** `observe`. Without trees attached the stores are not looked at. */
  method ObserveChain(
      o: NoteStore, i: NoteStore, attached: bool, tip: nat, node: Node, from: nat, c: Config, keys: Keys)
    returns (r: Result<(Zebra.Observed, seq<ForcedSighting>), ScanRangeError>)
    requires o != i
    modifies o, i
    ensures Both(o, i) == ObserveSpec(old(Both(o, i)), attached, tip, node, from, c, keys).0
    ensures match ObserveSpec(old(Both(o, i)), attached, tip, node, from, c, keys).1
            case Err(e) => r == Err(e)
            case Ok((reported, rs)) =>
              && r.Ok? && r.value.0.tip == reported && r.value.1 == Forced(rs)
              && forall h :: r.value.0.DepositsAt(h) == Zebra.AtHeight(Deposits(rs), h)
  {
    var start := if from < c.fromHeight then c.fromHeight else from;
    var end := Reach(c, start, tip);
    if end < start {
      var none := Zebra.New(if tip < end then tip else end, []);
      return Ok((none, []));
    }
    var blocks, fed := FeedTrees(o, i, attached, tip, node, c, keys);
    if blocks.Err? {
      return Err(blocks.error);
    }
    var seen := ScanBlocks(o, i, attached, start, end, fed, node, c, keys);
    if seen.Err? {
      return Err(seen.error);
    }
    var rs := blocks.value + seen.value;
    var snapshot := Zebra.New(end, Deposits(rs));
    r := Ok((snapshot, Forced(rs)));
  }

  /** `sync_notes`: the trees alone, from where they are up to a height. */
  function SyncSpec(ps: Pools, attached: bool, upTo: nat, node: Node, c: Config, keys: Keys)
    : (Pools, Result<nat, ScanRangeError>)
  {
    var start := TreeFrom(c, BothSynced(ps));
    var end := Reach(c, start, upTo);
    if !attached then (ps, Ok(upTo))
    else if end < start then (ps, Ok(Least(upTo, SatSub(start, 1))))
    else
      var (after, fed) := FeedRun(ps, start, Span(start, end), FeedFrom(node, c, keys));
      (after, if fed.Ok? then Ok(end) else Err(fed.error))
  }

  method SyncNotes(o: NoteStore, i: NoteStore, attached: bool, upTo: nat, node: Node, c: Config, keys: Keys)
    returns (r: Result<nat, ScanRangeError>)
    requires o != i
    modifies o, i
    ensures (Both(o, i), r) == SyncSpec(old(Both(o, i)), attached, upTo, node, c, keys)
    ensures r.Ok? ==> r.value <= upTo
    ensures var start := TreeFrom(c, BothSynced(old(Both(o, i))));
            attached && r.Ok? && r.value < upTo && c.maxBlocks >= 1 && start + c.maxBlocks <= U64_MAX ==>
              r.value + 1 == start + c.maxBlocks
  {
    if !attached {
      return Ok(upTo);
    }
    var synced := if o.syncedTo.None? || i.syncedTo.None? then None
      else Some(if o.syncedTo.value < i.syncedTo.value then o.syncedTo.value else i.syncedTo.value);
    var start := TreeFrom(c, synced);
    var end := Reach(c, start, upTo);
    if end < start {
      return Ok(Least(upTo, SatSub(start, 1)));
    }
    var fed := FeedBlocks(o, i, start, end, node, c, keys);
    if fed.Err? {
      return Err(fed.error);
    }
    r := Ok(end);
  }
}
