/** What one poll says, deposit by deposit (src/watcher.rs:212-291). */
module Crediting {
  import opened Prelude
  import opened Amount
  import opened Ordered
  import opened Watcher

  // ------------------------------------------------------------ what is to be credited

  /** A deposit not yet credited, of a positive amount, to somebody. */
  predicate Due(d: ObservedDeposit, credited: set<Hash>) {
    d.txid !in credited && d.amount > 0 && d.account != 0
  }

  /** Every deposit the chain shows above one height and up to another, in the order shown. */
  function AllShown(at: nat -> seq<ObservedDeposit>, from: nat, end: nat): seq<ObservedDeposit>
    decreases end
  {
    if end <= from then [] else AllShown(at, from, end - 1) + at(end)
  }

  /** Those due under one height and txid, in their order. */
  function DueUnder(ds: seq<ObservedDeposit>, credited: set<Hash>, height: nat, txid: Hash): seq<ObservedDeposit> {
    if ds == [] then [] else
      var d := ds[|ds| - 1];
      DueUnder(ds[..|ds| - 1], credited, height, txid)
        + if Due(d, credited) && d.height == height && d.txid == txid then [d] else []
  }

  /** A batch is in order of height and, within one, of txid. */
  ghost predicate InOrder(ds: seq<ObservedDeposit>) {
    forall i, j :: 0 <= i < j < |ds| ==>
      ds[i].height < ds[j].height || (ds[i].height == ds[j].height && ds[i].txid <= ds[j].txid)
  }

  /** All that is due and nothing else, in order; those of one height and txid as
      often as they are shown and in the order shown. */
  ghost predicate Rightly(ds: seq<ObservedDeposit>, shown: seq<ObservedDeposit>, credited: set<Hash>) {
    && InOrder(ds)
    && (forall i :: 0 <= i < |ds| ==> Due(ds[i], credited))
    && (forall h, t :: DueUnder(ds, credited, h, t) == DueUnder(shown, credited, h, t))
  }

  lemma {:induction false} DueUnderJoins(
      a: seq<ObservedDeposit>, b: seq<ObservedDeposit>, credited: set<Hash>, h: nat, t: Hash)
    ensures DueUnder(a + b, credited, h, t) == DueUnder(a, credited, h, t) + DueUnder(b, credited, h, t)
  {
    if b == [] {
      assert a + b == a;
    } else {
      var n := |b| - 1;
      DueUnderJoins(a, b[..n], credited, h, t);
      assert (a + b)[..|a| + n] == a + b[..n];
    }
  }

  lemma OneDueUnder(d: ObservedDeposit, credited: set<Hash>, h: nat, t: Hash)
    ensures DueUnder([d], credited, h, t) == if Due(d, credited) && d.height == h && d.txid == t then [d] else []
  {
    assert [d][..0] == [];
  }

  lemma {:induction false} FilterKeepsDue(ds: seq<ObservedDeposit>, credited: set<Hash>, h: nat, t: Hash)
    ensures DueUnder(Filter(ds, credited), credited, h, t) == DueUnder(ds, credited, h, t)
  {
    if ds != [] {
      var n := |ds| - 1;
      FilterKeepsDue(ds[..n], credited, h, t);
      if Wanted(ds[n], credited) {
        OneDueUnder(ds[n], credited, h, t);
        DueUnderJoins(Filter(ds[..n], credited), [ds[n]], credited, h, t);
      } else {
        assert Filter(ds, credited) == Filter(ds[..n], credited);
      }
    }
  }

  lemma {:induction false} GatherKeepsDue(
      at: nat -> seq<ObservedDeposit>, credited: set<Hash>, from: nat, end: nat, h: nat, t: Hash)
    ensures DueUnder(Gather(at, credited, from, end), credited, h, t)
         == DueUnder(AllShown(at, from, end), credited, h, t)
    decreases end
  {
    if from < end {
      GatherKeepsDue(at, credited, from, end - 1, h, t);
      FilterKeepsDue(at(end), credited, h, t);
      DueUnderJoins(Gather(at, credited, from, end - 1), Filter(at(end), credited), credited, h, t);
      DueUnderJoins(AllShown(at, from, end - 1), at(end), credited, h, t);
    }
  }

  lemma {:induction false} InsertKeepsDue(
      d: ObservedDeposit, ds: seq<ObservedDeposit>, credited: set<Hash>, h: nat, t: Hash)
    ensures DueUnder(InsertByKey(d, ds), credited, h, t)
         == DueUnder([d], credited, h, t) + DueUnder(ds, credited, h, t)
  {
    if ds == [] || KeyLeq(d, ds[0]) {
      DueUnderJoins([d], ds, credited, h, t);
    } else {
      InsertKeepsDue(d, ds[1..], credited, h, t);
      DueUnderJoins([ds[0]], InsertByKey(d, ds[1..]), credited, h, t);
      DueUnderJoins([ds[0]], ds[1..], credited, h, t);
      assert [ds[0]] + ds[1..] == ds;
      OneDueUnder(d, credited, h, t);
      OneDueUnder(ds[0], credited, h, t);
    }
  }

  lemma {:induction false} SortKeepsDue(ds: seq<ObservedDeposit>, credited: set<Hash>, h: nat, t: Hash)
    ensures DueUnder(SortByKey(ds), credited, h, t) == DueUnder(ds, credited, h, t)
  {
    if ds != [] {
      SortKeepsDue(ds[1..], credited, h, t);
      InsertKeepsDue(ds[0], SortByKey(ds[1..]), credited, h, t);
      DueUnderJoins([ds[0]], ds[1..], credited, h, t);
      assert [ds[0]] + ds[1..] == ds;
    }
  }

  predicate Before(a: ObservedDeposit, b: ObservedDeposit) {
    a.height < b.height || (a.height == b.height && a.txid <= b.txid)
  }

  lemma FirstInOrder(d: ObservedDeposit, ds: seq<ObservedDeposit>)
    requires InOrder(ds) && forall x :: x in ds ==> Before(d, x)
    ensures InOrder([d] + ds)
  {
    var all := [d] + ds;
    forall i, j | 0 <= i < j < |all| ensures Before(all[i], all[j]) {
      assert all[j] == ds[j - 1] && ds[j - 1] in ds;
      assert i > 0 ==> all[i] == ds[i - 1];
      assert i > 0 ==> Before(ds[i - 1], ds[j - 1]);
    }
  }

  lemma {:induction false} InsertInOrder(d: ObservedDeposit, ds: seq<ObservedDeposit>)
    requires InOrder(ds)
    ensures InOrder(InsertByKey(d, ds))
  {
    if ds == [] {
    } else if KeyLeq(d, ds[0]) {
      forall x | x in ds ensures Before(d, x) {
        var i :| 0 <= i < |ds| && ds[i] == x;
        assert i > 0 ==> Before(ds[0], ds[i]);
      }
      FirstInOrder(d, ds);
    } else {
      InsertInOrder(d, ds[1..]);
      forall x | x in InsertByKey(d, ds[1..]) ensures Before(ds[0], x) {
        if x in ds[1..] {
          var i :| 0 <= i < |ds[1..]| && ds[1..][i] == x;
          assert Before(ds[0], ds[i + 1]);
        }
      }
      FirstInOrder(ds[0], InsertByKey(d, ds[1..]));
    }
  }

  lemma {:induction false} SortInOrder(ds: seq<ObservedDeposit>)
    ensures InOrder(SortByKey(ds))
  {
    if ds != [] {
      SortInOrder(ds[1..]);
      InsertInOrder(ds[0], SortByKey(ds[1..]));
    }
  }

  lemma GatheredRightly(at: nat -> seq<ObservedDeposit>, credited: set<Hash>, from: nat, end: nat)
    ensures Rightly(SortByKey(Gather(at, credited, from, end)), AllShown(at, from, end), credited)
  {
    var gathered := Gather(at, credited, from, end);
    var ds := SortByKey(gathered);
    SortInOrder(gathered);
    GatherMembers(at, credited, from, end);
    forall i | 0 <= i < |ds| ensures Due(ds[i], credited) {
      assert ds[i] in gathered;
    }
    forall h, t ensures DueUnder(ds, credited, h, t) == DueUnder(AllShown(at, from, end), credited, h, t) {
      SortKeepsDue(gathered, credited, h, t);
      GatherKeepsDue(at, credited, from, end, h, t);
    }
  }

  // ------------------------------------------------------------ what a poll answers

  /** The highest height buried under the confirmations asked for, at least one. */
  function Deepest(s: State, v: View): int {
    v.tip + 1 - if s.confirmations > 1 then s.confirmations else 1
  }

  lemma SafeIsDeepest(s: State, v: View)
    ensures SafeHeight(s.confirmations, v.tip)
         == if Deepest(s, v) >= 1 then Some(Deepest(s, v)) else None
  {
  }

  /** The assets of a batch, each once and in order. */
  ghost predicate AssetsOf(assets: seq<Hash>, ds: seq<ObservedDeposit>) {
    && Increasing(assets)
    && (forall a: Hash :: a in assets <==> exists i :: 0 <= i < |ds| && ds[i].asset == Some(a))
  }

  /** The chain answers for the vault and for every asset of the batch. */
  ghost predicate Answered(v: View, reach: nat, assets: seq<Hash>) {
    v.balanceAt(reach).Some? && forall i :: 0 <= i < |assets| ==> v.balanceOf(assets[i], reach).Some?
  }

  /** The balance attested, then one for each asset, then one credit for each deposit. */
  ghost predicate Says(
      actions: seq<Action>, v: View, reach: nat, assets: seq<Hash>, ds: seq<ObservedDeposit>, next: nat)
  {
    && |actions| == 1 + |assets| + |ds| && Answered(v, reach, assets)
    && actions[0] == Attest(v.balanceAt(reach).value)
    && (forall i :: 0 <= i < |assets| ==>
          actions[1 + i] == AttestAsset(assets[i], v.balanceOf(assets[i], reach).value))
    && (forall i :: 0 <= i < |ds| ==>
          actions[1 + |assets| + i] == Credit(ds[i].account, ds[i].amount, next + i, ds[i].txid, ds[i].asset))
  }

  lemma {:induction false} AttestsSay(assets: seq<nat>, v: View, reach: nat)
    requires forall i :: 0 <= i < |assets| ==> AsHash(assets[i]) == assets[i]
    ensures AttestAssets(assets, v, reach).Some?
       <==> forall i :: 0 <= i < |assets| ==> v.balanceOf(AsHash(assets[i]), reach).Some?
    ensures AttestAssets(assets, v, reach).Some? ==>
              var r := AttestAssets(assets, v, reach).value;
              |r| == |assets| && forall i :: 0 <= i < |assets| ==>
                v.balanceOf(AsHash(assets[i]), reach).Some?
                && r[i] == AttestAsset(AsHash(assets[i]), v.balanceOf(AsHash(assets[i]), reach).value)
  {
    if assets != [] {
      AttestsSay(assets[1..], v, reach);
      assert forall i :: 1 <= i < |assets| ==> assets[i] == assets[1..][i - 1];
    }
  }

  lemma AssetsAre(ds: seq<ObservedDeposit>, a: Hash)
    ensures a in Assets(ds) <==> exists i :: 0 <= i < |ds| && ds[i].asset == Some(a)
  {
    if a in Assets(ds) {
      var d :| d in ds && d.asset.Some? && d.asset.value == a;
      var i :| 0 <= i < |ds| && ds[i] == d;
      assert ds[i].asset == Some(a);
    }
    if i :| 0 <= i < |ds| && ds[i].asset == Some(a) {
      assert ds[i] in ds;
    }
  }

  lemma SortedAssets(ds: seq<ObservedDeposit>) returns (assets: seq<Hash>)
    ensures AssetsOf(assets, ds) && Ascending(Assets(ds)) == assets
  {
    var all := Ascending(Assets(ds));
    forall i | 0 <= i < |all| ensures AsHash(all[i]) == all[i] {
      assert all[i] in Assets(ds);
    }
    assets := seq(|all|, i requires 0 <= i < |all| => AsHash(all[i]));
    assert assets == all;
    forall a: Hash ensures a in assets <==> exists i :: 0 <= i < |ds| && ds[i].asset == Some(a) {
      AssetsAre(ds, a);
      assert a in all <==> a in Assets(ds);
    }
  }

  lemma JoinedSay(
      v: View, reach: nat, assets: seq<Hash>, attests: seq<Action>, ds: seq<ObservedDeposit>, next: nat)
    requires Answered(v, reach, assets) && |attests| == |assets|
    requires forall i :: 0 <= i < |assets| ==>
               attests[i] == AttestAsset(assets[i], v.balanceOf(assets[i], reach).value)
    ensures Says([Attest(v.balanceAt(reach).value)] + attests + Numbered(ds, next), v, reach, assets, ds, next)
  {
  }

  lemma ReportSays(s: State, v: View, reach: nat, assets: seq<Hash>, ds: seq<ObservedDeposit>)
    requires Ascending(Assets(ds)) == assets
    ensures var (s', r) := ReportSpec(s, v, reach, ds);
            && (r.Ok? <==> Answered(v, reach, assets))
            && (r.Err? ==> s' == s && r.error == Unavailable)
            && (r.Ok? ==> s' == State(s.confirmations, reach, s.credited + Txids(ds), s.nextIndex + |ds|)
                          && Says(r.value, v, reach, assets, ds, s.nextIndex))
  {
    AttestsSay(assets, v, reach);
    if Answered(v, reach, assets) {
      var attests := BatchAttests(ds, v, reach).value;
      ReportIs(s, v, reach, ds, v.balanceAt(reach).value, attests);
      JoinedSay(v, reach, assets, attests, ds, s.nextIndex);
    }
  }

  /** All a poll does. Below the deepest height there is nothing to do. Above it, the
      deposits due up to there are credited, each field from its own deposit, after
      what the chain holds of each asset, or nothing happens if it cannot say. */
  lemma EveryPoll(s: State, v: View) returns (ds: seq<ObservedDeposit>, assets: seq<Hash>)
    ensures var (s', r) := PollSpec(s, v);
            var reach := Deepest(s, v);
            if reach <= s.scannedTo then s' == s && r == Ok([])
            else
              && Rightly(ds, AllShown(v.depositsAt, s.scannedTo, reach), s.credited) && AssetsOf(assets, ds)
              && if ds == [] then s' == s.(scannedTo := reach) && r == Ok([])
                 else if !Answered(v, reach, assets) then s' == s && r == Err(Unavailable)
                 else
                   && s' == State(s.confirmations, reach, s.credited + (set d | d in ds :: d.txid), s.nextIndex + |ds|)
                   && r.Ok? && Says(r.value, v, reach, assets, ds, s.nextIndex)
  {
    SafeIsDeepest(s, v);
    ds, assets := [], [];
    if Deepest(s, v) > s.scannedTo {
      var reach := Deepest(s, v);
      ds := SortByKey(Gather(v.depositsAt, s.credited, s.scannedTo, reach));
      assets := SortedAssets(ds);
      GatheredRightly(v.depositsAt, s.credited, s.scannedTo, reach);
      ReportSays(s, v, reach, assets, ds);
    }
  }

  // ------------------------------------------------------------ nothing due is missed

  lemma {:induction false} ShownUnder(ds: seq<ObservedDeposit>, credited: set<Hash>, d: ObservedDeposit)
    requires d in ds && Due(d, credited)
    ensures d in DueUnder(ds, credited, d.height, d.txid)
  {
    var n := |ds| - 1;
    if ds[n] != d {
      assert ds == ds[..n] + [ds[n]];
      ShownUnder(ds[..n], credited, d);
    }
  }

  lemma {:induction false} UnderIsShown(ds: seq<ObservedDeposit>, credited: set<Hash>, h: nat, t: Hash)
    ensures forall d :: d in DueUnder(ds, credited, h, t) ==> d in ds
  {
    if ds != [] {
      UnderIsShown(ds[..|ds| - 1], credited, h, t);
    }
  }

  lemma {:induction false} ShownAmongAll(
      at: nat -> seq<ObservedDeposit>, from: nat, h: nat, end: nat, d: ObservedDeposit)
    requires from < h <= end && d in at(h)
    ensures d in AllShown(at, from, end)
    decreases end
  {
    if h < end {
      ShownAmongAll(at, from, h, end - 1, d);
    }
  }

  /** After a poll that succeeds every deposit due that the chain showed, at a height
      not yet scanned and buried deep enough, has its credit among what is answered. */
  lemma EveryDueIsCredited(s: State, v: View, h: nat, d: ObservedDeposit)
    requires PollSpec(s, v).1.Ok?
    requires s.scannedTo < h && h + (if s.confirmations > 1 then s.confirmations else 1) <= v.tip + 1
    requires d in v.depositsAt(h) && d.txid !in s.credited && d.amount > 0 && d.account != 0
    ensures exists i :: 0 <= i < |PollSpec(s, v).1.value|
              && PollSpec(s, v).1.value[i].Credit?
              && PollSpec(s, v).1.value[i].account == d.account && PollSpec(s, v).1.value[i].amount == d.amount
              && PollSpec(s, v).1.value[i].externalRef == d.txid && PollSpec(s, v).1.value[i].creditAsset == d.asset
  {
    var ds, assets := EveryPoll(s, v);
    var reach := Deepest(s, v);
    var shown := AllShown(v.depositsAt, s.scannedTo, reach);
    ShownAmongAll(v.depositsAt, s.scannedTo, h, reach, d);
    ShownUnder(shown, s.credited, d);
    UnderIsShown(ds, s.credited, d.height, d.txid);
    assert d in DueUnder(ds, s.credited, d.height, d.txid);
    var k :| 0 <= k < |ds| && ds[k] == d;
    var action := PollSpec(s, v).1.value[1 + |assets| + k];
    assert action == Credit(d.account, d.amount, s.nextIndex + k, d.txid, d.asset);
  }
}
