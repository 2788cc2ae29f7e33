/** Turning confirmed deposits into credits (src/watcher.rs). */
module Watcher {
  import opened Prelude
  import opened Amount
  import opened Ordered

  type AccountId = Hash

  /** The all-zero account is nobody. */
  const NOBODY: AccountId := 0

  datatype ObservedDeposit = ObservedDeposit(
    txid: Hash, account: AccountId, amount: i128, height: nat, asset: Option<Hash>)

  /** What a chain answers at one moment. */
  datatype View = View(
    tip: nat,
    depositsAt: nat -> seq<ObservedDeposit>,
    balanceAt: nat -> Option<i128>,
    balanceOf: (Hash, nat) -> Option<i128>)

  datatype Action =
    | Attest(observed: i128)
    | Credit(account: AccountId, amount: i128, index: nat, externalRef: Hash, creditAsset: Option<Hash>)
    | AttestAsset(asset: Hash, assetObserved: i128)

  datatype Error = Unavailable | CreditedDepositReorgedOut(txid: Hash)

  datatype State = State(confirmations: nat, scannedTo: nat, credited: set<Hash>, nextIndex: nat)

  // ------------------------------------------------------------ one poll

  /** The highest height safely confirmed at this tip. */
  function SafeHeight(confirmations: nat, tip: nat): Option<nat> {
    var buried := SatSub(confirmations, 1);
    if tip < buried then None
    else if tip - buried < 1 then None
    else Some(tip - buried - 1 + 1)
  }

  predicate Wanted(d: ObservedDeposit, credited: set<Hash>) {
    d.txid !in credited && d.amount > 0 && d.account != NOBODY
  }

  function Filter(ds: seq<ObservedDeposit>, credited: set<Hash>): (r: seq<ObservedDeposit>)
    ensures forall d :: d in r <==> d in ds && Wanted(d, credited)
  {
    if ds == [] then [] else
      var last := ds[|ds| - 1];
      Filter(ds[..|ds| - 1], credited) + if Wanted(last, credited) then [last] else []
  }

  /** Everything wanted in the heights above `from`, up to `to`. */
  function Gather(at: nat -> seq<ObservedDeposit>, credited: set<Hash>, from: nat, end: nat): seq<ObservedDeposit>
    decreases end
  {
    if end <= from then [] else Gather(at, credited, from, end - 1) + Filter(at(end), credited)
  }

  predicate KeyLeq(a: ObservedDeposit, b: ObservedDeposit) {
    a.height < b.height || (a.height == b.height && a.txid <= b.txid)
  }

  function InsertByKey(d: ObservedDeposit, ds: seq<ObservedDeposit>): (r: seq<ObservedDeposit>)
    ensures |r| == |ds| + 1
    ensures forall x :: x in r <==> x == d || x in ds
  {
    if ds == [] || KeyLeq(d, ds[0]) then [d] + ds
    else [ds[0]] + InsertByKey(d, ds[1..])
  }

  /** The stable `sort_by_key(|d| (d.height, d.txid))`. */
  function SortByKey(ds: seq<ObservedDeposit>): (r: seq<ObservedDeposit>)
    ensures |r| == |ds|
    ensures forall x :: x in r <==> x in ds
  {
    if ds == [] then [] else InsertByKey(ds[0], SortByKey(ds[1..]))
  }

  function CreditOf(d: ObservedDeposit, index: nat): Action {
    Credit(d.account, d.amount, index, d.txid, d.asset)
  }

  /** One credit per deposit, numbered upward from `next`. */
  function Numbered(ds: seq<ObservedDeposit>, next: nat): (r: seq<Action>)
    ensures |r| == |ds|
    ensures forall i :: 0 <= i < |ds| ==> r[i] == CreditOf(ds[i], next + i)
  {
    seq(|ds|, i requires 0 <= i < |ds| => CreditOf(ds[i], next + i))
  }

  function Txids(ds: seq<ObservedDeposit>): set<Hash> {
    set d | d in ds :: d.txid
  }

  function Assets(ds: seq<ObservedDeposit>): set<Hash> {
    set d | d in ds && d.asset.Some? :: d.asset.value
  }

  /** One attestation for each other asset, in order; absent when one is not answered. */
  function AttestAssets(assets: seq<nat>, v: View, safe: nat): Option<seq<Action>> {
    if assets == [] then Some([]) else
      match v.balanceOf(AsHash(assets[0]), safe)
      case None => None
      case Some(observed) =>
        match AttestAssets(assets[1..], v, safe)
        case None => None
        case Some(rest) => Some([AttestAsset(AsHash(assets[0]), observed)] + rest)
  }

  /** An asset id is a hash, and a set of them iterates as numbers. */
  function AsHash(n: nat): Hash {
    if n < 0x1_0000_0000_0000_0000_0000_0000_0000_0000_0000_0000_0000_0000_0000_0000_0000_0000 then n else 0
  }

  function PollSpec(s: State, v: View): (State, Result<seq<Action>, Error>) {
    match SafeHeight(s.confirmations, v.tip)
    case None => (s, Ok([]))
    case Some(safe) =>
      if safe <= s.scannedTo then (s, Ok([])) else
        var batch := SortByKey(Gather(v.depositsAt, s.credited, s.scannedTo, safe));
        if batch == [] then (s.(scannedTo := safe), Ok([])) else ReportSpec(s, v, safe, batch)
  }

  /** One attestation for each other asset of the batch. */
  function BatchAttests(batch: seq<ObservedDeposit>, v: View, safe: nat): Option<seq<Action>> {
    AttestAssets(Ascending(Assets(batch)), v, safe)
  }

  /** The second half of `poll`: attest what is held, then credit the batch. */
  function ReportSpec(s: State, v: View, safe: nat, batch: seq<ObservedDeposit>): (State, Result<seq<Action>, Error>) {
    match v.balanceAt(safe)
    case None => (s, Err(Unavailable))
    case Some(observed) =>
      match BatchAttests(batch, v, safe)
      case None => (s, Err(Unavailable))
      case Some(attests) =>
        (State(s.confirmations, safe, s.credited + Txids(batch), s.nextIndex + |batch|),
         Ok([Attest(observed)] + attests + Numbered(batch, s.nextIndex)))
  }

  lemma ReportIs(s: State, v: View, safe: nat, batch: seq<ObservedDeposit>, observed: i128, attests: seq<Action>)
    requires v.balanceAt(safe) == Some(observed) && BatchAttests(batch, v, safe) == Some(attests)
    ensures ReportSpec(s, v, safe, batch)
         == (State(s.confirmations, safe, s.credited + Txids(batch), s.nextIndex + |batch|),
             Ok([Attest(observed)] + attests + Numbered(batch, s.nextIndex)))
  {
  }

  function RewindToSpec(s: State, height: nat): State {
    if height < s.scannedTo then s.(scannedTo := height) else s
  }

  // ------------------------------------------------------------ what a batch holds

  function CreditsIn(actions: seq<Action>): seq<Action> {
    if actions == [] then [] else
      var last := actions[|actions| - 1];
      CreditsIn(actions[..|actions| - 1]) + if last.Credit? then [last] else []
  }

  lemma {:induction false} CreditsInBoth(a: seq<Action>, b: seq<Action>)
    ensures CreditsIn(a + b) == CreditsIn(a) + CreditsIn(b)
    decreases |b|
  {
    if b == [] {
      assert a + b == a;
    } else {
      assert (a + b)[..|a + b| - 1] == a + b[..|b| - 1];
      CreditsInBoth(a, b[..|b| - 1]);
    }
  }

  lemma {:induction false} AllCredits(a: seq<Action>)
    requires forall i :: 0 <= i < |a| ==> a[i].Credit?
    ensures CreditsIn(a) == a
  {
    if a != [] {
      AllCredits(a[..|a| - 1]);
      assert a == a[..|a| - 1] + [a[|a| - 1]];
    }
  }

  lemma {:induction false} NoCredits(a: seq<Action>)
    requires forall i :: 0 <= i < |a| ==> !a[i].Credit?
    ensures CreditsIn(a) == []
  {
    if a != [] {
      NoCredits(a[..|a| - 1]);
    }
  }

  lemma {:induction false} AttestsAreNotCredits(assets: seq<nat>, v: View, safe: nat)
    ensures AttestAssets(assets, v, safe).Some? ==>
              forall i :: 0 <= i < |AttestAssets(assets, v, safe).value| ==>
                AttestAssets(assets, v, safe).value[i].AttestAsset?
    ensures assets == [] ==> AttestAssets(assets, v, safe) == Some([])
  {
    if assets != [] {
      AttestsAreNotCredits(assets[1..], v, safe);
    }
  }

  /** The credits of one poll. */
  function PollCredits(s: State, v: View): seq<Action> {
    match PollSpec(s, v).1
    case Ok(actions) => CreditsIn(actions)
    case Err(_) => []
  }

  /** What a poll gathered, when it succeeded with something new; else nothing. */
  function Credited(s: State, v: View): seq<ObservedDeposit> {
    if PollSpec(s, v).1.Err? || PollSpec(s, v).1.value == [] then []
    else SortByKey(Gather(v.depositsAt, s.credited, s.scannedTo, SafeHeight(s.confirmations, v.tip).value))
  }

  /** The credits of a poll are its deposits numbered from where it stood; its
      state moves by exactly those; and an error changes nothing. */
  lemma PollEffect(s: State, v: View)
    ensures var (s', r) := PollSpec(s, v);
            && PollCredits(s, v) == Numbered(Credited(s, v), s.nextIndex)
            && s'.nextIndex == s.nextIndex + |PollCredits(s, v)|
            && s'.credited == s.credited + Txids(Credited(s, v))
            && s'.confirmations == s.confirmations
            && (r.Err? ==> s' == s && r.error == Unavailable)
  {
    var (s', r) := PollSpec(s, v);
    if r.Ok? && r.value != [] {
      var safe := SafeHeight(s.confirmations, v.tip).value;
      var batch := Credited(s, v);
      AttestsAreNotCredits(Ascending(Assets(batch)), v, safe);
      BatchCredits(v.balanceAt(safe).value, BatchAttests(batch, v, safe).value, batch, s.nextIndex);
    }
  }

  lemma BatchCredits(observed: i128, attests: seq<Action>, batch: seq<ObservedDeposit>, next: nat)
    requires forall i :: 0 <= i < |attests| ==> attests[i].AttestAsset?
    ensures CreditsIn([Attest(observed)] + attests + Numbered(batch, next)) == Numbered(batch, next)
  {
    var head := [Attest(observed)] + attests;
    forall i | 0 <= i < |head| ensures !head[i].Credit? {
      assert i > 0 ==> head[i] == attests[i - 1];
    }
    CreditsAfter(head, Numbered(batch, next));
  }

  lemma CreditsAfter(head: seq<Action>, tail: seq<Action>)
    requires forall i :: 0 <= i < |head| ==> !head[i].Credit?
    requires forall i :: 0 <= i < |tail| ==> tail[i].Credit?
    ensures CreditsIn(head + tail) == tail
  {
    CreditsInBoth(head, tail);
    NoCredits(head);
    AllCredits(tail);
  }

  lemma {:induction false} GatherMembers(at: nat -> seq<ObservedDeposit>, credited: set<Hash>, from: nat, end: nat)
    ensures forall d :: d in Gather(at, credited, from, end) ==>
              Wanted(d, credited) && exists h :: from < h <= end && d in at(h)
    decreases end
  {
    if from < end {
      GatherMembers(at, credited, from, end - 1);
      forall d | d in Gather(at, credited, from, end) ensures exists h :: from < h <= end && d in at(h) {
        if d in Gather(at, credited, from, end - 1) {
          var h :| from < h <= end - 1 && d in at(h);
        } else {
          assert d in at(end);
        }
      }
    }
  }

  /** The view showed this deposit at a height not scanned before and buried
      under the confirmations asked for, at least one. */
  ghost predicate Buried(d: ObservedDeposit, s: State, v: View) {
    exists h: nat :: d in v.depositsAt(h) && s.scannedTo < h
        && h + (if s.confirmations > 1 then s.confirmations else 1) <= v.tip + 1
  }

  ghost predicate Confirmed(c: Action, s: State, v: View) {
    exists d :: && Buried(d, s, v) && Wanted(d, s.credited) && c.Credit?
      && c.account == d.account && c.amount == d.amount && c.externalRef == d.txid && c.creditAsset == d.asset
  }

  /** Every credit is for a deposit that was wanted and buried deep enough. */
  lemma CreditsAreConfirmed(s: State, v: View, i: nat)
    requires i < |PollCredits(s, v)|
    ensures Confirmed(PollCredits(s, v)[i], s, v)
  {
    PollEffect(s, v);
    var d := Credited(s, v)[i];
    GatheredIsBuried(s, v, d);
    assert PollCredits(s, v)[i] == CreditOf(d, s.nextIndex + i);
  }

  lemma GatheredIsBuried(s: State, v: View, d: ObservedDeposit)
    requires d in Credited(s, v)
    ensures Wanted(d, s.credited) && Buried(d, s, v)
  {
    var safe := SafeHeight(s.confirmations, v.tip).value;
    GatherMembers(v.depositsAt, s.credited, s.scannedTo, safe);
    var h :| s.scannedTo < h <= safe && d in v.depositsAt(h);
  }

  // ------------------------------------------------------------ any run

  datatype Op = Poll(view: View) | RewindTo(height: nat)

  function StepSpec(s: State, op: Op): State {
    match op
    case Poll(v) => PollSpec(s, v).0
    case RewindTo(h) => RewindToSpec(s, h)
  }

  function StepCredits(s: State, op: Op): seq<Action> {
    match op
    case Poll(v) => PollCredits(s, v)
    case RewindTo(_) => []
  }

  function After(s: State, ops: seq<Op>): State
    decreases |ops|
  {
    if ops == [] then s else StepSpec(After(s, ops[..|ops| - 1]), ops[|ops| - 1])
  }

  /** The credits of a whole run, in order. */
  function RunCredits(s: State, ops: seq<Op>): seq<Action>
    decreases |ops|
  {
    if ops == [] then [] else
      RunCredits(s, ops[..|ops| - 1]) + StepCredits(After(s, ops[..|ops| - 1]), ops[|ops| - 1])
  }

  /** The credits of the i-th step of a run. */
  function CreditsOfStep(s: State, ops: seq<Op>, i: nat): seq<Action>
    requires i < |ops|
  {
    StepCredits(After(s, ops[..i]), ops[i])
  }

  ghost function Refs(credits: seq<Action>): set<Hash> {
    set c | c in credits && c.Credit? :: c.externalRef
  }

  lemma StepEffect(s: State, op: Op)
    ensures var s' := StepSpec(s, op);
            && s'.nextIndex == s.nextIndex + |StepCredits(s, op)|
            && s'.credited == s.credited + Refs(StepCredits(s, op))
            && Refs(StepCredits(s, op)) !! s.credited
            && (forall i :: 0 <= i < |StepCredits(s, op)| ==>
                  StepCredits(s, op)[i].Credit? && StepCredits(s, op)[i].index == s.nextIndex + i)
  {
    if op.Poll? {
      var v := op.view;
      PollEffect(s, v);
      var ds := Credited(s, v);
      var cs := PollCredits(s, v);
      forall t | t in Txids(ds) ensures t in Refs(cs) {
        var d :| d in ds && d.txid == t;
        var i :| 0 <= i < |ds| && ds[i] == d;
        assert cs[i] in cs;
      }
      forall t | t in Refs(cs) ensures t in Txids(ds) && t !in s.credited {
        var c :| c in cs && c.Credit? && c.externalRef == t;
        var i :| 0 <= i < |cs| && cs[i] == c;
        assert ds[i] in ds;
        GatheredIsBuried(s, v, ds[i]);
      }
    }
  }

  /** Over any run of polls and rewinds, against any views whatever, the k-th
      credit has index next + k. */
  lemma {:induction false} IndicesAreDense(s: State, ops: seq<Op>)
    ensures After(s, ops).nextIndex == s.nextIndex + |RunCredits(s, ops)|
    ensures forall k :: 0 <= k < |RunCredits(s, ops)| ==>
              RunCredits(s, ops)[k].Credit? && RunCredits(s, ops)[k].index == s.nextIndex + k
    decreases |ops|
  {
    if ops != [] {
      IndicesAreDense(s, ops[..|ops| - 1]);
      StepEffect(After(s, ops[..|ops| - 1]), ops[|ops| - 1]);
    }
  }

  lemma {:induction false} CreditedOnlyGrows(s: State, ops: seq<Op>, i: nat, j: nat)
    requires i <= j <= |ops|
    ensures After(s, ops[..i]).credited <= After(s, ops[..j]).credited
    decreases j
  {
    if i < j {
      CreditedOnlyGrows(s, ops, i, j - 1);
      assert ops[..j][..j - 1] == ops[..j - 1];
      StepEffect(After(s, ops[..j - 1]), ops[j - 1]);
    }
  }

  /** No txid is credited by two different steps of a run, nor one already
      credited before it; what a reorganisation moves or repeats is not paid again. */
  lemma NoTxidCreditedByTwoPolls(s: State, ops: seq<Op>, i: nat, j: nat)
    requires i < j < |ops|
    ensures Refs(CreditsOfStep(s, ops, i)) !! Refs(CreditsOfStep(s, ops, j))
    ensures Refs(CreditsOfStep(s, ops, j)) !! s.credited
  {
    StepEffect(After(s, ops[..i]), ops[i]);
    assert ops[..i + 1][..i] == ops[..i];
    CreditedOnlyGrows(s, ops, i + 1, j);
    CreditedOnlyGrows(s, ops, 0, j);
    assert ops[..0] == [];
    StepEffect(After(s, ops[..j]), ops[j]);
  }

  // ---- within one poll

  ghost predicate DistinctTxids(ds: seq<ObservedDeposit>) {
    forall i, j :: 0 <= i < j < |ds| ==> ds[i].txid != ds[j].txid
  }

  lemma {:induction false} DistinctIffCounted(ds: seq<ObservedDeposit>)
    ensures |Txids(ds)| <= |ds|
    ensures DistinctTxids(ds) <==> |Txids(ds)| == |ds|
  {
    if ds != [] {
      var n := |ds| - 1;
      DistinctIffCounted(ds[..n]);
      DistinctOnTheEnd(ds);
      OneMore(ds, n, 0);
      assert ds[..n + 1] == ds;
      CountWith(Txids(ds[..n]), ds[n].txid);
    }
  }

  lemma CountWith(s: set<Hash>, x: Hash)
    ensures |s + {x}| == if x in s then |s| else |s| + 1
  {
    if x in s {
      assert s + {x} == s;
    }
  }

  lemma DistinctOnTheEnd(ds: seq<ObservedDeposit>)
    requires ds != []
    ensures var n := |ds| - 1; DistinctTxids(ds) <==> DistinctTxids(ds[..n]) && ds[n].txid !in Txids(ds[..n])
  {
    var n := |ds| - 1;
    if ds[n].txid in Txids(ds[..n]) {
      var d :| d in ds[..n] && d.txid == ds[n].txid;
      var i :| 0 <= i < n && ds[..n][i] == d;
      assert ds[i].txid == ds[n].txid;
    } else {
      forall i | 0 <= i < n ensures ds[i].txid != ds[n].txid {
        assert ds[i] in ds[..n];
      }
    }
    assert forall i :: 0 <= i < n ==> ds[..n][i] == ds[i];
  }

  /** The filter looks only at earlier polls. Inside one poll a txid is credited
      once for each time the view shows it among the deposits wanted, so a poll
      credits every txid at most once exactly when it is shown none twice. */
  lemma RepeatedExactlyWhenShownTwice(s: State, v: View)
    requires PollSpec(s, v).1.Ok? && PollSpec(s, v).1.value != []
    ensures var safe := SafeHeight(s.confirmations, v.tip).value;
            var cs := PollCredits(s, v);
            (forall i, j :: 0 <= i < j < |cs| ==>
               cs[i].Credit? && cs[j].Credit? && cs[i].externalRef != cs[j].externalRef)
              <==> DistinctTxids(Gather(v.depositsAt, s.credited, s.scannedTo, safe))
  {
    PollEffect(s, v);
    var safe := SafeHeight(s.confirmations, v.tip).value;
    var shown := Gather(v.depositsAt, s.credited, s.scannedTo, safe);
    assert Txids(SortByKey(shown)) == Txids(shown);
    DistinctIffCounted(shown);
    DistinctIffCounted(SortByKey(shown));
    SameDistinctness(Credited(s, v), s.nextIndex);
  }

  lemma SameDistinctness(ds: seq<ObservedDeposit>, next: nat)
    ensures var cs := Numbered(ds, next);
            (forall i, j :: 0 <= i < j < |cs| ==>
               cs[i].Credit? && cs[j].Credit? && cs[i].externalRef != cs[j].externalRef)
              <==> DistinctTxids(ds)
  {
    var cs := Numbered(ds, next);
    assert forall i :: 0 <= i < |cs| ==> cs[i].Credit? && cs[i].externalRef == ds[i].txid;
  }

  /** "At most once" is false inside a poll: one transaction paying two accounts. */
  lemma OneTxidCreditedTwice() returns (s: State, v: View)
    ensures |PollCredits(s, v)| == 2 && Refs(PollCredits(s, v)) == {9}
  {
    var a, b;
    s, v, a, b := TwoPayments();
    BothCredited(s, v, a, b);
  }

  /** A new watcher, and a view of one confirmed block paying two accounts in one transaction. */
  ghost predicate ShowsBoth(s: State, v: View, a: ObservedDeposit, b: ObservedDeposit) {
    && SafeHeight(s.confirmations, v.tip) == Some(1) && s.scannedTo == 0 && s.credited == {} && s.nextIndex == 0
    && v.depositsAt(1) == [a, b] && v.balanceAt(1).Some? && a.txid == b.txid
    && Wanted(a, {}) && Wanted(b, {}) && KeyLeq(a, b) && a.asset.None? && b.asset.None?
  }

  lemma TwoPayments() returns (s: State, v: View, a: ObservedDeposit, b: ObservedDeposit)
    ensures ShowsBoth(s, v, a, b) && a.txid == 9
  {
    a, b := ObservedDeposit(9, 1, 5, 1, None), ObservedDeposit(9, 2, 5, 1, None);
    s := NewWatcher();
    v := ViewOf(a, b);
  }

  lemma NewWatcher() returns (s: State)
    ensures s.confirmations == 1 && s.scannedTo == 0 && s.credited == {} && s.nextIndex == 0
  {
    s := State(1, 0, {}, 0);
  }

  lemma ViewOf(a: ObservedDeposit, b: ObservedDeposit) returns (v: View)
    ensures v.tip == 1 && v.depositsAt(1) == [a, b] && v.balanceAt(1).Some?
  {
    v := View(1, (h: nat) => [a, b], (h: nat) => Some(10), (x: Hash, h: nat) => None);
  }

  lemma BothCredited(s: State, v: View, a: ObservedDeposit, b: ObservedDeposit)
    requires ShowsBoth(s, v, a, b)
    ensures |PollCredits(s, v)| == 2 && Refs(PollCredits(s, v)) == {a.txid}
  {
    BothGathered(v.depositsAt, a, b);
    BothSorted(a, b);
    assert Assets([a, b]) == {};
    assert Credited(s, v) == [a, b];
    PollEffect(s, v);
    RefsOfTwo(CreditOf(a, 0), CreditOf(b, 1), a.txid);
    assert PollCredits(s, v) == [CreditOf(a, 0), CreditOf(b, 1)];
  }

  lemma RefsOfTwo(a: Action, b: Action, txid: Hash)
    requires a.Credit? && b.Credit? && a.externalRef == b.externalRef == txid
    ensures Refs([a, b]) == {txid}
  {
    assert a in [a, b];
  }

  lemma BothGathered(at: nat -> seq<ObservedDeposit>, a: ObservedDeposit, b: ObservedDeposit)
    requires at(1) == [a, b] && Wanted(a, {}) && Wanted(b, {})
    ensures Gather(at, {}, 0, 1) == [a, b]
  {
    assert [a, b][..1] == [a] && [a][..0] == [];
    assert Filter([a], {}) == [a] && Filter([a, b], {}) == [a, b];
    assert Gather(at, {}, 0, 0) == [];
  }

  lemma BothSorted(a: ObservedDeposit, b: ObservedDeposit)
    requires KeyLeq(a, b)
    ensures SortByKey([a, b]) == [a, b]
  {
    assert [a, b][1..] == [b] && [b][1..] == [];
    assert SortByKey([b]) == [b];
  }

  // ------------------------------------------------------------ cadence

  /** A chain that does not change: each deposit is shown at its own height and
      each txid at one height. */
  ghost predicate Settled(at: nat -> seq<ObservedDeposit>) {
    && (forall h, d :: d in at(h) ==> d.height == h)
    && (forall g, h, d, e :: d in at(g) && e in at(h) && d.txid == e.txid ==> g == h)
  }

  ghost predicate Answers(at: nat -> seq<ObservedDeposit>, v: View) {
    && v.depositsAt == at
    && (forall h :: v.balanceAt(h).Some?)
    && (forall a, h :: v.balanceOf(a, h).Some?)
  }

  lemma {:induction false} GatherSplits(at: nat -> seq<ObservedDeposit>, credited: set<Hash>, a: nat, b: nat, c: nat)
    requires a <= b <= c
    ensures Gather(at, credited, a, c) == Gather(at, credited, a, b) + Gather(at, credited, b, c)
    decreases c
  {
    if b < c {
      GatherSplits(at, credited, a, b, c - 1);
    }
  }

  lemma {:induction false} FilterIgnoresForeign(ds: seq<ObservedDeposit>, credited: set<Hash>, more: set<Hash>)
    requires forall d :: d in ds ==> d.txid !in more
    ensures Filter(ds, credited + more) == Filter(ds, credited)
  {
    if ds != [] {
      FilterIgnoresForeign(ds[..|ds| - 1], credited, more);
      assert ds[|ds| - 1] in ds;
    }
  }

  lemma {:induction false} GatherIgnoresForeign(
      at: nat -> seq<ObservedDeposit>, credited: set<Hash>, more: set<Hash>, b: nat, c: nat)
    requires forall h, d :: b < h <= c && d in at(h) ==> d.txid !in more
    ensures Gather(at, credited + more, b, c) == Gather(at, credited, b, c)
    decreases c
  {
    if b < c {
      GatherIgnoresForeign(at, credited, more, b, c - 1);
      FilterIgnoresForeign(at(c), credited, more);
    }
  }

  lemma {:induction false} InsertBelow(d: ObservedDeposit, a: seq<ObservedDeposit>, b: seq<ObservedDeposit>)
    requires forall x :: x in b ==> KeyLeq(d, x)
    ensures InsertByKey(d, a + b) == InsertByKey(d, a) + b
  {
    if a == [] {
      assert a + b == b;
      if b != [] {
        assert b[0] in b;
      }
    } else if !KeyLeq(d, a[0]) {
      assert (a + b)[1..] == a[1..] + b;
      InsertBelow(d, a[1..], b);
    } else {
      assert [d] + (a + b) == [d] + a + b;
    }
  }

  lemma {:induction false} SortSplits(a: seq<ObservedDeposit>, b: seq<ObservedDeposit>)
    requires forall x, y :: x in a && y in b ==> x.height < y.height
    ensures SortByKey(a + b) == SortByKey(a) + SortByKey(b)
  {
    if a == [] {
      assert a + b == b;
    } else {
      assert (a + b)[1..] == a[1..] + b;
      assert a[0] in a && forall x :: x in a[1..] ==> x in a;
      SortSplits(a[1..], b);
      InsertBelow(a[0], SortByKey(a[1..]), SortByKey(b));
    }
  }

  /** Polling once over a range is polling over its two halves. */
  lemma RangeSplits(at: nat -> seq<ObservedDeposit>, credited: set<Hash>, a: nat, b: nat, c: nat)
    requires Settled(at) && a <= b <= c
    ensures var first := SortByKey(Gather(at, credited, a, b));
            SortByKey(Gather(at, credited, a, c))
              == first + SortByKey(Gather(at, credited + Txids(first), b, c))
  {
    var first := Gather(at, credited, a, b);
    var rest := Gather(at, credited, b, c);
    GatherMembers(at, credited, a, b);
    GatherMembers(at, credited, b, c);
    GatherSplits(at, credited, a, b, c);
    forall x, y | x in first && y in rest ensures x.height < y.height {
      var g :| a < g <= b && x in at(g);
      var h :| b < h <= c && y in at(h);
    }
    SortSplits(first, rest);
    forall h, d | b < h <= c && d in at(h) ensures d.txid !in Txids(SortByKey(first)) {
      forall x | x in SortByKey(first) ensures x.txid != d.txid {
        var g :| a < g <= b && x in at(g);
      }
    }
    GatherIgnoresForeign(at, credited, Txids(SortByKey(first)), b, c);
  }

  /** Where a watcher stands after a poll at this tip. */
  function Reach(s: State, tip: nat): nat {
    match SafeHeight(s.confirmations, tip)
    case None => s.scannedTo
    case Some(safe) => if safe > s.scannedTo then safe else s.scannedTo
  }

  /** What a single poll up to height `reach` gathers, and the state it leaves. */
  ghost function PolledDeposits(at: nat -> seq<ObservedDeposit>, s: State, reach: nat): seq<ObservedDeposit> {
    SortByKey(Gather(at, s.credited, s.scannedTo, reach))
  }

  ghost function Polled(at: nat -> seq<ObservedDeposit>, s: State, reach: nat): State {
    var batch := PolledDeposits(at, s, reach);
    State(s.confirmations, reach, s.credited + Txids(batch), s.nextIndex + |batch|)
  }

  lemma SettledPoll(at: nat -> seq<ObservedDeposit>, s: State, v: View)
    requires Answers(at, v)
    ensures PollCredits(s, v) == Numbered(PolledDeposits(at, s, Reach(s, v.tip)), s.nextIndex)
    ensures PollSpec(s, v).0 == Polled(at, s, Reach(s, v.tip))
  {
    PollEffect(s, v);
    var safe := SafeHeight(s.confirmations, v.tip);
    if safe.Some? && safe.value > s.scannedTo {
      AttestsAnswered(Ascending(Assets(PolledDeposits(at, s, safe.value))), v, safe.value);
    }
  }

  lemma {:induction false} AttestsAnswered(assets: seq<nat>, v: View, safe: nat)
    requires forall a, h :: v.balanceOf(a, h).Some?
    ensures AttestAssets(assets, v, safe).Some?
  {
    if assets != [] {
      AttestsAnswered(assets[1..], v, safe);
    }
  }

  ghost predicate TipsRise(ops: seq<Op>, at: nat -> seq<ObservedDeposit>) {
    && (forall i :: 0 <= i < |ops| ==> ops[i].Poll? && Answers(at, ops[i].view))
    && (forall i, j :: 0 <= i <= j < |ops| ==> ops[i].view.tip <= ops[j].view.tip)
  }

  /** Many polls at rising tips say what one poll at the last tip would. */
  lemma {:induction false} RunIsOnePoll(at: nat -> seq<ObservedDeposit>, s: State, ops: seq<Op>)
    requires Settled(at) && TipsRise(ops, at) && ops != []
    ensures var reach := Reach(s, ops[|ops| - 1].view.tip);
            && RunCredits(s, ops) == Numbered(PolledDeposits(at, s, reach), s.nextIndex)
            && After(s, ops) == Polled(at, s, reach)
    decreases |ops|
  {
    var n := |ops| - 1;
    var front, v := ops[..n], ops[n].view;
    if n == 0 {
      assert front == [];
      SettledPoll(at, s, v);
    } else {
      RunIsOnePoll(at, s, front);
      assert front[n - 1].view.tip == ops[n - 1].view.tip <= v.tip;
      RunLast(s, ops);
      ThenPoll(at, s, Reach(s, front[n - 1].view.tip), v);
    }
  }

  lemma RunLast(s: State, ops: seq<Op>)
    requires ops != [] && ops[|ops| - 1].Poll?
    ensures var n := |ops| - 1; var mid := After(s, ops[..n]);
            && RunCredits(s, ops) == RunCredits(s, ops[..n]) + PollCredits(mid, ops[n].view)
            && After(s, ops) == PollSpec(mid, ops[n].view).0
  {
  }

  lemma ThenPoll(at: nat -> seq<ObservedDeposit>, s: State, mid: nat, v: View)
    requires Settled(at) && Answers(at, v) && s.scannedTo <= mid <= Reach(s, v.tip)
    ensures PollSpec(Polled(at, s, mid), v).0 == Polled(at, s, Reach(s, v.tip))
    ensures Numbered(PolledDeposits(at, s, mid), s.nextIndex) + PollCredits(Polled(at, s, mid), v)
         == Numbered(PolledDeposits(at, s, Reach(s, v.tip)), s.nextIndex)
  {
    var t := Polled(at, s, mid);
    var reach := Reach(s, v.tip);
    assert Reach(t, v.tip) == reach;
    SettledPoll(at, t, v);
    RangeSplits(at, s.credited, s.scannedTo, mid, reach);
    TwoPollsAddUp(s, t, PolledDeposits(at, s, mid), PolledDeposits(at, t, reach));
  }

  lemma TwoPollsAddUp(s: State, t: State, first: seq<ObservedDeposit>, second: seq<ObservedDeposit>)
    requires t.nextIndex == s.nextIndex + |first| && t.credited == s.credited + Txids(first)
    ensures Numbered(first, s.nextIndex) + Numbered(second, t.nextIndex) == Numbered(first + second, s.nextIndex)
    ensures t.credited + Txids(second) == s.credited + Txids(first + second)
  {
    forall x | x in Txids(first + second) ensures x in Txids(first) + Txids(second) {
      var d :| d in first + second && d.txid == x;
    }
    forall x | x in Txids(first) + Txids(second) ensures x in Txids(first + second) {
      if x in Txids(first) {
        var d :| d in first && d.txid == x;
        assert d in first + second;
      } else {
        var d :| d in second && d.txid == x;
        assert d in first + second;
      }
    }
  }

  /** How often a settled chain is polled does not change what is credited, in
      which order, or under which index. */
  lemma CadenceDoesNotMatter(at: nat -> seq<ObservedDeposit>, s: State, often: seq<Op>, seldom: seq<Op>)
    requires Settled(at) && TipsRise(often, at) && TipsRise(seldom, at) && often != [] && seldom != []
    requires SafeHeight(s.confirmations, often[|often| - 1].view.tip)
          == SafeHeight(s.confirmations, seldom[|seldom| - 1].view.tip)
    ensures RunCredits(s, often) == RunCredits(s, seldom)
    ensures After(s, often) == After(s, seldom)
  {
    RunIsOnePoll(at, s, often);
    RunIsOnePoll(at, s, seldom);
  }

  // ------------------------------------------------------------ the watcher, as an object

  class DepositWatcher {
    const confirmations: nat
    var scannedTo: nat
    var credited: set<Hash>
    var nextIndex: nat

    ghost function Model(): State
      reads this
    {
      State(confirmations, scannedTo, credited, nextIndex)
    }

    constructor Resume(confirmations: nat, nextIndex: nat, scannedTo: nat)
      ensures Model() == State(confirmations, scannedTo, {}, nextIndex)
    {
      this.confirmations := confirmations;
      this.scannedTo, this.credited, this.nextIndex := scannedTo, {}, nextIndex;
    }

    method RewindTo(height: nat)
      modifies this
      ensures Model() == RewindToSpec(old(Model()), height)
      ensures scannedTo == (if old(scannedTo) <= height then old(scannedTo) else height)
      ensures credited == old(credited) && nextIndex == old(nextIndex)
    {
      if height < scannedTo {
        scannedTo := height;
      }
    }

    method Poll(v: View) returns (r: Result<seq<Action>, Error>)
      modifies this
      ensures (Model(), r) == PollSpec(old(Model()), v)
      ensures r.Err? ==> Model() == old(Model())
    {
      var safe := SafeHeight(confirmations, v.tip);
      if safe.None? || safe.value <= scannedTo {
        return Ok([]);
      }
      var batch := Collect(v, credited, scannedTo, safe.value);
      batch := SortByKey(batch);
      if batch == [] {
        scannedTo := safe.value;
        return Ok([]);
      }
      r := Report(v, safe.value, batch);
    }

    method Report(v: View, safe: nat, batch: seq<ObservedDeposit>) returns (r: Result<seq<Action>, Error>)
      modifies this
      ensures (Model(), r) == ReportSpec(old(Model()), v, safe, batch)
    {
      var observed := v.balanceAt(safe);
      if observed.None? {
        return Err(Unavailable);
      }
      var attests := BatchAttests(batch, v, safe);
      if attests.None? {
        return Err(Unavailable);
      }
      ReportIs(Model(), v, safe, batch, observed.value, attests.value);
      r := EmitAll(safe, batch, [Attest(observed.value)] + attests.value);
    }

    /** What is attested first, then the credits. */
    method EmitAll(safe: nat, batch: seq<ObservedDeposit>, attested: seq<Action>)
      returns (r: Result<seq<Action>, Error>)
      modifies this
      ensures var s := old(Model());
              && Model() == State(s.confirmations, safe, s.credited + Txids(batch), s.nextIndex + |batch|)
              && r == Ok(attested + Numbered(batch, s.nextIndex))
    {
      var credits := Emit(batch);
      scannedTo := safe;
      r := Ok(attested + credits);
    }

    /** The emitting loop of `poll`: one credit per deposit, each with the next index. */
    method Emit(batch: seq<ObservedDeposit>) returns (credits: seq<Action>)
      modifies this`nextIndex, this`credited
      ensures credits == Numbered(batch, old(nextIndex))
      ensures nextIndex == old(nextIndex) + |batch| && credited == old(credited) + Txids(batch)
    {
      credits := [];
      var i := 0;
      while i < |batch|
        invariant 0 <= i <= |batch|
        invariant nextIndex == old(nextIndex) + i && credited == old(credited) + Txids(batch[..i])
        invariant credits == Numbered(batch[..i], old(nextIndex))
      {
        credits := credits + [CreditOf(batch[i], nextIndex)];
        OneMore(batch, i, old(nextIndex));
        nextIndex := nextIndex + 1;
        credited := credited + {batch[i].txid};
        i := i + 1;
      }
      assert batch[..i] == batch;
    }
  }

  lemma OneMore(ds: seq<ObservedDeposit>, i: nat, next: nat)
    requires i < |ds|
    ensures Txids(ds[..i + 1]) == Txids(ds[..i]) + {ds[i].txid}
    ensures Numbered(ds[..i + 1], next) == Numbered(ds[..i], next) + [CreditOf(ds[i], next + i)]
  {
    assert ds[..i + 1] == ds[..i] + [ds[i]];
    forall t | t in Txids(ds[..i]) ensures t in Txids(ds[..i + 1]) {
      var d :| d in ds[..i] && d.txid == t;
      assert d in ds[..i + 1];
    }
    assert ds[i] in ds[..i + 1];
  }

  /** The collecting loops of `poll`. */
  method Collect(v: View, credited: set<Hash>, from: nat, end: nat) returns (batch: seq<ObservedDeposit>)
    requires from <= end
    ensures batch == Gather(v.depositsAt, credited, from, end)
  {
    batch := [];
    var height := from;
    while height < end
      invariant from <= height <= end
      invariant batch == Gather(v.depositsAt, credited, from, height)
    {
      height := height + 1;
      var wanted := KeepWanted(v.depositsAt(height), credited);
      batch := batch + wanted;
    }
  }

  method KeepWanted(ds: seq<ObservedDeposit>, credited: set<Hash>) returns (kept: seq<ObservedDeposit>)
    ensures kept == Filter(ds, credited)
  {
    kept := [];
    var i := 0;
    while i < |ds|
      invariant 0 <= i <= |ds|
      invariant kept == Filter(ds[..i], credited)
    {
      var d := ds[i];
      assert ds[..i + 1][..i] == ds[..i];
      if d.txid !in credited && d.amount > 0 && d.account != NOBODY {
        kept := kept + [d];
      }
      i := i + 1;
    }
    assert ds[..i] == ds;
  }

  /** `audit`: silent exactly when everything credited is still shown in the
      range; otherwise it names the first one that is not. */
  method Audit(s: State, v: View, from: nat, end: nat) returns (r: Result<(), Error>)
    ensures r.Ok? <==> forall t :: t in s.credited ==> Shown(v, from, end, t)
    ensures r.Err? ==> r.error.CreditedDepositReorgedOut?
    ensures r.Err? ==> r.error.txid in s.credited && !Shown(v, from, end, r.error.txid)
    ensures r.Err? ==> forall t :: t in s.credited && t < r.error.txid ==> Shown(v, from, end, t)
  {
    var seen := TxidsShown(v, from, end);
    var credited := Ascending(s.credited);
    var i := 0;
    while i < |credited|
      invariant 0 <= i <= |credited|
      invariant forall j :: 0 <= j < i ==> credited[j] in seen
    {
      assert credited[i] in credited;
      if credited[i] !in seen {
        forall t | t in s.credited && t < credited[i] ensures t in seen {
          assert t in credited;
          var j :| 0 <= j < |credited| && credited[j] == t;
        }
        return Err(CreditedDepositReorgedOut(credited[i]));
      }
      i := i + 1;
    }
    forall t | t in s.credited ensures t in seen {
      assert t in credited;
    }
    r := Ok(());
  }

  method TxidsShown(v: View, from: nat, end: nat) returns (seen: set<Hash>)
    ensures forall t :: t in seen <==> Shown(v, from, end, t)
  {
    seen := {};
    var h := from;
    while h <= end
      invariant from <= h
      invariant forall t :: t in seen <==>
                  exists g, d :: from <= g < h && g <= end && d in v.depositsAt(g) && d.txid == t
      decreases end + 1 - h
    {
      seen := seen + Txids(v.depositsAt(h));
      h := h + 1;
    }
  }

  ghost predicate Shown(v: View, from: nat, end: nat, txid: Hash) {
    exists h, d :: from <= h <= end && d in v.depositsAt(h) && d.txid == txid
  }
}
