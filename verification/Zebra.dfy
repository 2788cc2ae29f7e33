/** A snapshot of what the chain said, as the watcher reads it (src/zebra.rs). */
module Zebra {
  import opened Prelude
  import opened Amount
  import opened Ordered
  import opened Watcher

  datatype Observed = Observed(tip: nat, deposits: map<nat, seq<ObservedDeposit>>) {

    /** `deposits_at`. */
    function DepositsAt(height: nat): seq<ObservedDeposit> {
      if height in deposits then deposits[height] else []
    }

    /** `balance_at`: what was received up to a height, in height order; absent
        past the tip or when a partial sum leaves the range. */
    function BalanceSpec(height: nat): Option<i128> {
      if height > tip then None else SumUpTo(Ascending(deposits.Keys), height, 0)
    }

    function SumUpTo(heights: seq<nat>, height: nat, total: i128): Option<i128>
      requires forall h :: h in heights ==> h in deposits
      decreases |heights|
    {
      if heights == [] || heights[0] > height then Some(total) else
        match AddAll(deposits[heights[0]], total)
        case None => None
        case Some(t) => SumUpTo(heights[1..], height, t)
    }

    lemma OneHeight(heights: seq<nat>, i: nat, height: nat, total: i128)
      requires i < |heights| && forall h :: h in heights ==> h in deposits
      ensures heights[i] in deposits && (forall h :: h in heights[i + 1..] ==> h in deposits)
      ensures SumUpTo(heights[i..], height, total)
           == if heights[i] > height then Some(total) else
                match AddAll(deposits[heights[i]], total)
                case None => None
                case Some(t) => SumUpTo(heights[i + 1..], height, t)
    {
      assert heights[i] in heights;
      assert heights[i..][1..] == heights[i + 1..];
    }

    method BalanceAt(height: nat) returns (r: Option<i128>)
      ensures r == BalanceSpec(height)
    {
      if height > tip {
        return None;
      }
      var total: i128 := 0;
      var heights: seq<nat> := Ascending(deposits.Keys);
      var i := 0;
      while i < |heights|
        invariant 0 <= i <= |heights|
        invariant SumUpTo(heights, height, 0) == SumUpTo(heights[i..], height, total)
        decreases |heights| - i
      {
        OneHeight(heights, i, height, total);
        if heights[i] > height {
          break;
        }
        var t := AddEach(deposits[heights[i]], total);
        if t.None? {
          return None;
        }
        total := t.value;
        i := i + 1;
      }
      r := Some(total);
    }

    /** The snapshot as the watcher's view of a chain; it knows no other asset. */
    function AsView(): View {
      View(tip, (h: nat) => DepositsAt(h), (h: nat) => BalanceSpec(h), (a: Hash, h: nat) => None)
    }
  }

  function CheckedAdd(a: i128, b: i128): Option<i128> {
    if FitsI128(a + b) then Some(a + b) else None
  }

  function AddAll(ds: seq<ObservedDeposit>, total: i128): Option<i128> {
    if ds == [] then Some(total) else
      match CheckedAdd(total, ds[0].amount)
      case None => None
      case Some(t) => AddAll(ds[1..], t)
  }

  /** The inner loop of `balance_at`. */
  method AddEach(ds: seq<ObservedDeposit>, start: i128) returns (r: Option<i128>)
    ensures r == AddAll(ds, start)
  {
    var total := start;
    var j := 0;
    while j < |ds|
      invariant 0 <= j <= |ds|
      invariant AddAll(ds, start) == AddAll(ds[j..], total)
    {
      assert ds[j..][0] == ds[j] && ds[j..][1..] == ds[j + 1..];
      var t := CheckedAdd(total, ds[j].amount);
      if t.None? {
        return None;
      }
      total := t.value;
      j := j + 1;
    }
    r := Some(total);
  }

  // ------------------------------------------------------------ building one

  function AtHeight(ds: seq<ObservedDeposit>, height: nat): seq<ObservedDeposit> {
    if ds == [] then [] else
      var last := ds[|ds| - 1];
      AtHeight(ds[..|ds| - 1], height) + if last.height == height then [last] else []
  }

  /** `Observed::new`: every deposit filed under its own height, in the order given. */
  method New(tip: nat, ds: seq<ObservedDeposit>) returns (o: Observed)
    ensures o.tip == tip
    ensures forall h :: o.DepositsAt(h) == AtHeight(ds, h)
    ensures forall h :: h in o.deposits ==> o.deposits[h] != []
  {
    var byHeight: map<nat, seq<ObservedDeposit>> := map[];
    var i := 0;
    while i < |ds|
      invariant 0 <= i <= |ds|
      invariant forall h :: Observed(tip, byHeight).DepositsAt(h) == AtHeight(ds[..i], h)
      invariant forall h :: h in byHeight ==> byHeight[h] != []
    {
      var d := ds[i];
      assert ds[..i + 1][..i] == ds[..i];
      byHeight := byHeight[d.height := (if d.height in byHeight then byHeight[d.height] else []) + [d]];
      i := i + 1;
    }
    assert ds[..i] == ds;
    o := Observed(tip, byHeight);
  }

  /** What is filed under a height is what came with it, each in its place. */
  lemma {:induction false} FiledInOrder(ds: seq<ObservedDeposit>, height: nat) returns (places: seq<nat>)
    ensures PlacesOf(places, ds, height) && |places| == |AtHeight(ds, height)|
    ensures forall k :: 0 <= k < |places| ==> places[k] < |ds| && AtHeight(ds, height)[k] == ds[places[k]]
  {
    places := [];
    if ds != [] {
      var n := |ds| - 1;
      var before := FiledInOrder(ds[..n], height);
      PlacesNext(before, ds, n, height);
      places := before + if ds[n].height == height then [n] else [];
    }
  }

  /** The places of what came with a height, each once and in order. */
  ghost predicate PlacesOf(places: seq<nat>, ds: seq<ObservedDeposit>, height: nat) {
    Increasing(places) && forall i :: i in places <==> 0 <= i < |ds| && ds[i].height == height
  }

  lemma PlacesNext(before: seq<nat>, ds: seq<ObservedDeposit>, n: nat, height: nat)
    requires |ds| == n + 1 && PlacesOf(before, ds[..n], height)
    ensures PlacesOf(before + if ds[n].height == height then [n] else [], ds, height)
  {
    assert forall i :: 0 <= i < n ==> ds[..n][i] == ds[i];
    assert forall k :: 0 <= k < |before| ==> before[k] in before;
  }

  // ------------------------------------------------------------ attestations cover credits

  function Sum(ds: seq<ObservedDeposit>): int {
    if ds == [] then 0 else ds[0].amount + Sum(ds[1..])
  }

  ghost predicate NonNegative(ds: seq<ObservedDeposit>) {
    forall i :: 0 <= i < |ds| ==> ds[i].amount >= 0
  }

  lemma {:induction false} AddAllIsSum(ds: seq<ObservedDeposit>, total: i128)
    requires NonNegative(ds) && total >= 0
    ensures AddAll(ds, total) == if FitsI128(total + Sum(ds)) then Some(total + Sum(ds)) else None
    ensures Sum(ds) >= 0
  {
    if ds != [] {
      var t := CheckedAdd(total, ds[0].amount);
      AddAllIsSum(ds[1..], if t.Some? then t.value else 0);
    }
  }

  // ------------------------------------------------------------ when a balance is answered

  /** Everything shown from one height up to another, in height order. */
  function Between(o: Observed, from: nat, height: nat): seq<ObservedDeposit>
    decreases height + 1 - from
  {
    if from > height then [] else o.DepositsAt(from) + Between(o, from + 1, height)
  }

  lemma {:induction false} AddAllJoins(a: seq<ObservedDeposit>, b: seq<ObservedDeposit>, total: i128)
    ensures AddAll(a + b, total)
         == match AddAll(a, total) case None => None case Some(t) => AddAll(b, t)
  {
    if a == [] {
      assert a + b == b;
    } else {
      assert (a + b)[1..] == a[1..] + b;
      var t := CheckedAdd(total, a[0].amount);
      if t.Some? {
        AddAllJoins(a[1..], b, t.value);
      }
    }
  }

  lemma {:induction false} NothingBetween(o: Observed, from: nat, height: nat)
    requires forall h :: h in o.deposits ==> h < from
    ensures Between(o, from, height) == []
    decreases height + 1 - from
  {
    if from <= height {
      NothingBetween(o, from + 1, height);
    }
  }

  lemma {:induction false} SumUpToIs(o: Observed, heights: seq<nat>, from: nat, height: nat, total: i128)
    requires Increasing(heights) && forall h :: h in heights ==> h in o.deposits && from <= h
    requires forall h :: h in o.deposits && from <= h ==> h in heights
    ensures o.SumUpTo(heights, height, total) == AddAll(Between(o, from, height), total)
    decreases height + 1 - from
  {
    if from > height {
      if heights != [] {
        assert heights[0] in heights;
      }
    } else if heights == [] {
      NothingBetween(o, from, height);
    } else if heights[0] == from {
      var t := AddAll(o.deposits[from], total);
      AddAllJoins(o.DepositsAt(from), Between(o, from + 1, height), total);
      assert heights == [heights[0]] + heights[1..];
      forall h | h in heights[1..] ensures h in o.deposits && from + 1 <= h {
        assert h in heights;
        var i :| 0 < i < |heights| && heights[i] == h;
      }
      if t.Some? {
        SumUpToIs(o, heights[1..], from + 1, height, t.value);
      }
    } else {
      forall h | h in heights ensures from + 1 <= h {
        var i :| 0 <= i < |heights| && heights[i] == h;
        assert heights[0] in heights;
      }
      assert from !in o.deposits;
      assert o.DepositsAt(from) + Between(o, from + 1, height) == Between(o, from + 1, height);
      SumUpToIs(o, heights, from + 1, height, total);
    }
  }

  /** No running sum leaves the range. */
  ghost predicate StaysInRange(ds: seq<ObservedDeposit>, total: int) {
    forall k :: 0 <= k <= |ds| ==> FitsI128(total + Sum(ds[..k]))
  }

  lemma {:induction false} AddAllExactlyWhen(ds: seq<ObservedDeposit>, total: i128)
    ensures AddAll(ds, total) == if StaysInRange(ds, total) then Some(total + Sum(ds)) else None
  {
    if ds == [] {
      assert forall k :: 0 <= k <= |ds| ==> ds[..k] == [];
    } else {
      var next := total + ds[0].amount;
      forall k | 0 < k <= |ds| ensures Sum(ds[..k]) == ds[0].amount + Sum(ds[1..][..k - 1]) {
        assert ds[..k][1..] == ds[1..][..k - 1];
      }
      assert Sum(ds[..0]) == 0 && ds[..|ds|] == ds;
      assert Sum(ds[..1]) == ds[0].amount;
      if FitsI128(next) {
        AddAllExactlyWhen(ds[1..], next);
        RangeNext(ds, total);
      } else {
        assert !FitsI128(total + Sum(ds[..1]));
      }
    }
  }

  lemma RangeNext(ds: seq<ObservedDeposit>, total: i128)
    requires ds != []
    requires forall k :: 0 < k <= |ds| ==> Sum(ds[..k]) == ds[0].amount + Sum(ds[1..][..k - 1])
    ensures StaysInRange(ds, total) <==> StaysInRange(ds[1..], total + ds[0].amount)
  {
    var rest := ds[1..];
    if StaysInRange(ds, total) {
      forall k | 0 <= k <= |rest| ensures FitsI128(total + ds[0].amount + Sum(rest[..k])) {
        var j := k + 1;
        assert FitsI128(total + Sum(ds[..j]));
      }
    }
    if StaysInRange(rest, total + ds[0].amount) {
      forall k | 0 <= k <= |ds| ensures FitsI128(total + Sum(ds[..k])) {
        if k > 0 {
          var j := k - 1;
          assert FitsI128(total + ds[0].amount + Sum(rest[..j]));
        }
      }
    }
  }

  /** The sum of all of them, as long as no running sum leaves the range. */
  ghost function TotalOf(ds: seq<ObservedDeposit>): Option<int> {
    if StaysInRange(ds, 0) then Some(Sum(ds)) else None
  }

  lemma TotalIs(ds: seq<ObservedDeposit>)
    ensures AddAll(ds, 0) == TotalOf(ds)
  {
    AddAllExactlyWhen(ds, 0);
  }

  /** A balance is answered exactly up to the tip, the tip included, and as long as no
      running sum in height order leaves the range; and it is that sum. */
  lemma BalanceExactlyWhen(o: Observed, height: nat)
    ensures o.BalanceSpec(height) == if height <= o.tip then TotalOf(Between(o, 0, height)) else None
  {
    if height <= o.tip {
      BalanceIs(o, height, Between(o, 0, height));
      TotalIs(Between(o, 0, height));
    }
  }

  lemma BalanceIs(o: Observed, height: nat, ds: seq<ObservedDeposit>)
    requires height <= o.tip && ds == Between(o, 0, height)
    ensures o.BalanceSpec(height) == AddAll(ds, 0)
  {
    var heights: seq<nat> := Ascending(o.deposits.Keys);
    SumUpToIs(o, heights, 0, height, 0);
  }

  lemma {:induction false} SumConcat(a: seq<ObservedDeposit>, b: seq<ObservedDeposit>)
    ensures Sum(a + b) == Sum(a) + Sum(b)
  {
    if a == [] {
      assert a + b == b;
    } else {
      SumConcat(a[1..], b);
      assert (a + b)[1..] == a[1..] + b;
    }
  }

  lemma {:induction false} SumFilter(ds: seq<ObservedDeposit>, credited: set<Hash>)
    requires NonNegative(ds)
    ensures 0 <= Sum(Filter(ds, credited)) <= Sum(ds)
  {
    if ds != [] {
      var n := |ds| - 1;
      SumFilter(ds[..n], credited);
      SumConcat(ds[..n], [ds[n]]);
      assert ds == ds[..n] + [ds[n]];
      assert [ds[n]][1..] == [];
      if Wanted(ds[n], credited) {
        SumConcat(Filter(ds[..n], credited), [ds[n]]);
      } else {
        assert Filter(ds, credited) == Filter(ds[..n], credited);
      }
    }
  }

  lemma {:induction false} SumSorted(ds: seq<ObservedDeposit>)
    ensures Sum(SortByKey(ds)) == Sum(ds)
  {
    if ds != [] {
      SumSorted(ds[1..]);
      SumInserted(ds[0], SortByKey(ds[1..]));
    }
  }

  lemma {:induction false} SumInserted(d: ObservedDeposit, ds: seq<ObservedDeposit>)
    ensures Sum(InsertByKey(d, ds)) == d.amount + Sum(ds)
  {
    if ds == [] || KeyLeq(d, ds[0]) {
      assert ([d] + ds)[1..] == ds;
    } else {
      SumInserted(d, ds[1..]);
      assert ([ds[0]] + InsertByKey(d, ds[1..]))[1..] == InsertByKey(d, ds[1..]);
    }
  }

  /** All that a snapshot shows at the listed heights up to `height`. */
  ghost function Shown(o: Observed, heights: seq<nat>, height: nat): int {
    if heights == [] then 0 else
      (if heights[0] <= height then Sum(o.DepositsAt(heights[0])) else 0) + Shown(o, heights[1..], height)
  }

  ghost predicate AllNonNegative(o: Observed) {
    forall h :: h in o.deposits ==> NonNegative(o.deposits[h])
  }

  lemma {:induction false} SumUpToIsShown(o: Observed, heights: seq<nat>, height: nat, total: i128)
    requires AllNonNegative(o) && Increasing(heights) && (forall h :: h in heights ==> h in o.deposits) && total >= 0
    ensures o.SumUpTo(heights, height, total).Some? ==>
              o.SumUpTo(heights, height, total).value == total + Shown(o, heights, height)
    decreases |heights|
  {
    if heights != [] {
      if heights[0] > height {
        NothingAbove(o, heights, height);
      } else {
        var ds := o.deposits[heights[0]];
        AddAllIsSum(ds, total);
        var t := AddAll(ds, total);
        if t.Some? {
          SumUpToIsShown(o, heights[1..], height, t.value);
        }
      }
    }
  }

  lemma {:induction false} NothingAbove(o: Observed, heights: seq<nat>, height: nat)
    requires forall i :: 0 <= i < |heights| ==> heights[i] > height
    ensures Shown(o, heights, height) == 0
  {
    if heights != [] {
      NothingAbove(o, heights[1..], height);
    }
  }

  /** Going one height further adds what is shown there. */
  lemma {:induction false} ShownNext(o: Observed, heights: seq<nat>, below: nat, height: nat, ds: seq<ObservedDeposit>)
    requires Increasing(heights) && height == below + 1 && ds == o.DepositsAt(height)
    ensures Shown(o, heights, height) == Shown(o, heights, below) + if height in heights then Sum(ds) else 0
  {
    if heights != [] {
      ShownNext(o, heights[1..], below, height, ds);
      if heights[0] == height {
        assert forall i :: 0 < i < |heights| ==> heights[i] > height;
        assert height !in heights[1..];
      }
    }
  }

  ghost predicate Shows(at: nat -> seq<ObservedDeposit>, o: Observed) {
    forall h :: at(h) == o.DepositsAt(h)
  }

  /** What a poll would gather, added up height by height. */
  ghost function GatheredSum(at: nat -> seq<ObservedDeposit>, credited: set<Hash>, from: nat, height: nat): int
    decreases height
  {
    if height <= from then 0 else GatheredSum(at, credited, from, height - 1) + Sum(Filter(at(height), credited))
  }

  lemma {:induction false} GatherAddsUp(at: nat -> seq<ObservedDeposit>, credited: set<Hash>, from: nat, height: nat)
    ensures Sum(Gather(at, credited, from, height)) == GatheredSum(at, credited, from, height)
    decreases height
  {
    if from < height {
      GatherAddsUp(at, credited, from, height - 1);
      SumConcat(Gather(at, credited, from, height - 1), Filter(at(height), credited));
    }
  }

  lemma {:induction false} GatheredAtMostShown(
      o: Observed, at: nat -> seq<ObservedDeposit>, heights: seq<nat>, credited: set<Hash>, from: nat, height: nat)
    requires AllNonNegative(o) && Shows(at, o)
    requires Increasing(heights) && forall h :: h in o.deposits ==> h in heights
    ensures GatheredSum(at, credited, from, height) <= Shown(o, heights, height)
    decreases height
  {
    if height <= from {
      ShownNonNegative(o, heights, height);
    } else {
      var ds := o.DepositsAt(height);
      GatheredAtMostShown(o, at, heights, credited, from, height - 1);
      ShownNext(o, heights, height - 1, height, ds);
      assert height !in heights ==> ds == [];
      assert at(height) == ds;
      SumFilter(ds, credited);
    }
  }

  lemma {:induction false} ShownNonNegative(o: Observed, heights: seq<nat>, height: nat)
    requires AllNonNegative(o)
    ensures Shown(o, heights, height) >= 0
  {
    if heights != [] {
      ShownNonNegative(o, heights[1..], height);
      AddAllIsSum(o.DepositsAt(heights[0]), 0);
    }
  }

  ghost function CreditSum(actions: seq<Action>): int {
    if actions == [] then 0 else
      (if actions[0].Credit? then actions[0].amount else 0) + CreditSum(actions[1..])
  }

  lemma {:induction false} NumberedSum(ds: seq<ObservedDeposit>, next: nat)
    ensures CreditSum(Numbered(ds, next)) == Sum(ds)
  {
    if ds != [] {
      NumberedSum(ds[1..], next + 1);
      assert Numbered(ds, next)[1..] == Numbered(ds[1..], next + 1);
    }
  }

  ghost predicate OwnAssetOnly(o: Observed) {
    forall h, d :: h in o.deposits && d in o.deposits[h] ==> d.asset.None?
  }

  lemma NoOtherAssets(o: Observed, at: nat -> seq<ObservedDeposit>, credited: set<Hash>, from: nat, height: nat)
    requires OwnAssetOnly(o) && Shows(at, o)
    ensures Assets(SortByKey(Gather(at, credited, from, height))) == {}
  {
    GatherMembers(at, credited, from, height);
    forall d | d in Gather(at, credited, from, height) ensures d.asset.None? {
      var h :| from < h <= height && d in at(h);
      assert at(h) == o.DepositsAt(h);
    }
  }

  /** A poll of a snapshot with no negative amount and no other asset either
      says nothing, fails, or attests once, first, to at least as much as all
      the credits that follow add up to. */
  lemma AttestationCoversCredits(o: Observed, s: State)
    requires AllNonNegative(o) && OwnAssetOnly(o)
    ensures var r := PollSpec(s, o.AsView()).1;
            r.Ok? && r.value != [] ==>
              && r.value[0].Attest?
              && (forall i :: 0 < i < |r.value| ==> r.value[i].Credit?)
              && r.value[0].observed >= CreditSum(r.value)
  {
    var v := o.AsView();
    var safe := SafeHeight(s.confirmations, v.tip);
    if safe.Some? && safe.value > s.scannedTo {
      ReportIsCovered(o, s, v.depositsAt, v, safe.value);
    }
  }

  lemma ReportIsCovered(o: Observed, s: State, at: nat -> seq<ObservedDeposit>, v: View, safe: nat)
    requires AllNonNegative(o) && OwnAssetOnly(o) && Shows(at, o) && v.balanceAt(safe) == o.BalanceSpec(safe)
    ensures var r := ReportSpec(s, v, safe, SortByKey(Gather(at, s.credited, s.scannedTo, safe))).1;
            r.Ok? ==>
              && r.value != [] && r.value[0].Attest?
              && (forall i :: 0 < i < |r.value| ==> r.value[i].Credit?)
              && r.value[0].observed >= CreditSum(r.value)
  {
    var batch := SortByKey(Gather(at, s.credited, s.scannedTo, safe));
    NoOtherAssets(o, at, s.credited, s.scannedTo, safe);
    assert Ascending({}) == [];
    BalanceCovers(o, at, s, safe);
    NumberedSum(batch, s.nextIndex);
    if v.balanceAt(safe).Some? {
      AttestThenCredits(v.balanceAt(safe).value, Numbered(batch, s.nextIndex));
    }
  }

  lemma BalanceCovers(o: Observed, at: nat -> seq<ObservedDeposit>, s: State, safe: nat)
    requires AllNonNegative(o) && Shows(at, o)
    ensures o.BalanceSpec(safe).Some? ==>
              o.BalanceSpec(safe).value >= Sum(SortByKey(Gather(at, s.credited, s.scannedTo, safe)))
  {
    var heights := Ascending(o.deposits.Keys);
    GatherAddsUp(at, s.credited, s.scannedTo, safe);
    GatheredAtMostShown(o, at, heights, s.credited, s.scannedTo, safe);
    SumUpToIsShown(o, heights, safe, 0);
    SumSorted(Gather(at, s.credited, s.scannedTo, safe));
  }

  lemma AttestThenCredits(observed: i128, credits: seq<Action>)
    ensures [Attest(observed)] + [] + credits == [Attest(observed)] + credits
    ensures CreditSum([Attest(observed)] + credits) == CreditSum(credits)
  {
    assert ([Attest(observed)] + credits)[1..] == credits;
  }
}
