/** Signing a payout with a quorum (src/payout.rs, `needs_signatures` and
    `sign_all_with`). */
module Payout {
  import opened Prelude
  import opened Ordered
  import opened Custodian
  import opened Signing
  import Ceremony

  /** One action of the bundle, as far as signing it goes. */
  datatype Slot = Slot(alpha: Option<Randomizer>, rk: nat, signature: Option<Signature>)

  datatype Needs = Needs(index: nat, alpha: Randomizer)

  datatype PayoutError = BadSignature | NoSuchAction(index: nat)

  /** The signing library: the group key under a randomizer, a custodian's share,
      the aggregate, its bytes read as an authorisation, and the check against an
      action's own key. */
  datatype Library = Library(
    randomized: Randomizer -> Option<nat>,
    signs: SignsFor,
    combines: Signature -> bool,
    decodes: Signature -> bool,
    verifies: (nat, seq<byte>, Signature) -> bool)

  // ------------------------------------------------------------ what needs signing

  /** An action of the vault's own: its key is the group key under its randomizer. */
  predicate Own(s: Slot, lib: Library) {
    s.alpha.Some? && lib.randomized(s.alpha.value) == Some(s.rk)
  }

  /** `needs_signatures`: the vault's own actions with their places, padding left out. */
  function NeedsSignatures(slots: seq<Slot>, lib: Library): (needed: seq<Needs>)
    ensures forall i :: 0 <= i < |needed| ==>
              && needed[i].index < |slots| && slots[needed[i].index].alpha == Some(needed[i].alpha)
              && lib.randomized(needed[i].alpha) == Some(slots[needed[i].index].rk)
    ensures forall i, j :: 0 <= i < j < |needed| ==> needed[i].index < needed[j].index
    ensures forall k ::
              (0 <= k < |slots| && slots[k].alpha.Some? && lib.randomized(slots[k].alpha.value) == Some(slots[k].rk))
              ==> Needs(k, slots[k].alpha.value) in needed
  {
    if slots == [] then [] else
      var n := |slots| - 1;
      var before := NeedsSignatures(slots[..n], lib);
      if Own(slots[n], lib) then before + [Needs(n, slots[n].alpha.value)] else before
  }

  /** Only signatures differ. */
  ghost predicate SameActions(a: seq<Slot>, b: seq<Slot>) {
    |a| == |b| && forall k :: 0 <= k < |a| ==> a[k].alpha == b[k].alpha && a[k].rk == b[k].rk
  }

  ghost function Places(needed: seq<Needs>): set<nat> {
    set i | 0 <= i < |needed| :: needed[i].index
  }

  /** Only signatures of the needed actions differ: what was already signed stays. */
  ghost predicate OnlySigned(a: seq<Slot>, b: seq<Slot>, needed: seq<Needs>) {
    SameActions(a, b) && forall k :: 0 <= k < |a| && k !in Places(needed) ==> a[k] == b[k]
  }

  // ------------------------------------------------------------ who signs

  /** The first custodians, in identifier order, that answered round one. */
  function ChosenFrom<T>(r1: map<Identifier, T>, threshold: nat): (ids: seq<Identifier>)
    requires threshold <= |r1|
    ensures |ids| == threshold && Increasing(ids) && forall id :: id in ids ==> id in r1
    ensures forall id, other :: id in ids && other in r1 && other !in ids ==> id < other
  {
    var all := Ascending(r1.Keys);
    assert |all| == |r1.Keys|;
    FirstAreLeast(all, threshold);
    all[..threshold]
  }

  lemma FirstAreLeast(all: seq<Identifier>, k: nat)
    requires Increasing(all) && k <= |all|
    ensures forall id, other :: id in all[..k] && other in all && other !in all[..k] ==> id < other
  {
    assert all == all[..k] + all[k..];
    forall id, other | id in all[..k] && other in all[k..] ensures id < other {
      var i :| 0 <= i < k && all[..k][i] == id;
      var j :| 0 <= j < |all| - k && all[k..][j] == other;
    }
  }

  ghost function AsSet(ids: seq<Identifier>): set<Identifier> {
    set id | id in ids
  }

  lemma {:induction false} IncreasingCount(ids: seq<Identifier>)
    requires Increasing(ids)
    ensures |AsSet(ids)| == |ids|
  {
    if ids != [] {
      var n := |ids| - 1;
      IncreasingCount(ids[..n]);
      assert AsSet(ids) == AsSet(ids[..n]) + {ids[n]};
      assert ids[n] !in AsSet(ids[..n]);
    }
  }

  /** Each chosen custodian's element at one index. */
  method PickAt<T>(answers: map<Identifier, seq<T>>, ids: seq<Identifier>, i: nat)
    returns (r: Option<map<Identifier, T>>)
    ensures r.Some? <==> forall id :: id in ids ==> id in answers && i < |answers[id]|
    ensures r.Some? ==> r.value.Keys == AsSet(ids) && forall id :: id in ids ==> r.value[id] == answers[id][i]
  {
    var out: map<Identifier, T> := map[];
    var k := 0;
    while k < |ids|
      invariant 0 <= k <= |ids|
      invariant out.Keys == AsSet(ids[..k])
      invariant forall id :: id in ids[..k] ==> id in answers && i < |answers[id]| && out[id] == answers[id][i]
    {
      var id := ids[k];
      if id !in answers || i >= |answers[id]| {
        return None;
      }
      assert AsSet(ids[..k + 1]) == AsSet(ids[..k]) + {id};
      out := out[id := answers[id][i]];
      k := k + 1;
    }
    assert ids[..k] == ids;
    r := Some(out);
  }

  /** The packages: the i-th is over the message with the chosen custodians' i-th commitments. */
  ghost predicate PackagesOf(
      packages: seq<Package>, r1: map<Identifier, seq<Nonce>>, ids: seq<Identifier>, message: seq<byte>)
  {
    forall i :: 0 <= i < |packages| ==>
      && packages[i].message == message && packages[i].commitments.Keys == AsSet(ids)
      && forall id :: id in ids ==> id in r1 && i < |r1[id]| && packages[i].commitments[id] == r1[id][i]
  }

  method BuildPackages(r1: map<Identifier, seq<Nonce>>, ids: seq<Identifier>, count: nat, message: seq<byte>)
    returns (r: Option<seq<Package>>)
    ensures r.Some? ==> |r.value| == count && PackagesOf(r.value, r1, ids, message)
    ensures (forall id :: id in ids ==> id in r1 && |r1[id]| >= count) ==> r.Some?
  {
    var packages: seq<Package> := [];
    while |packages| < count
      invariant |packages| <= count && PackagesOf(packages, r1, ids, message)
    {
      var commitments := PickAt(r1, ids, |packages|);
      if commitments.None? {
        return None;
      }
      packages := packages + [Package(message, commitments.value)];
    }
    r := Some(packages);
  }

  // ------------------------------------------------------------ signing

  class Payout {
    var slots: seq<Slot>

    constructor (slots: seq<Slot>)
      ensures this.slots == slots
    {
      this.slots := slots;
    }

    /** `apply`: a signature is checked against the action's own key before it is kept. */
    method Apply(index: nat, message: seq<byte>, sig: Signature, lib: Library) returns (r: Result<(), PayoutError>)
      modifies this
      ensures r.Ok? <==> index < |old(slots)| && lib.verifies(old(slots)[index].rk, message, sig)
      ensures slots == if r.Ok? then old(slots)[index := old(slots)[index].(signature := Some(sig))] else old(slots)
      ensures r == Err(NoSuchAction(index)) <==> index >= |old(slots)|
      ensures r.Err? && index < |old(slots)| ==> r == Err(BadSignature)
    {
      if index >= |slots| {
        return Err(NoSuchAction(index));
      }
      if !lib.verifies(slots[index].rk, message, sig) {
        return Err(BadSignature);
      }
      slots := slots[index := slots[index].(signature := Some(sig))];
      r := Ok(());
    }
  }

  /** The signature of the i-th action signed: from the shares of exactly the
      chosen custodians, each made with the nonce that custodian committed for
      this action, over this action's package and under its randomizer. */
  ghost predicate Authorises(
      sig: Signature, i: nat, alpha: Randomizer, message: seq<byte>, ids: seq<Identifier>,
      r1: map<Identifier, seq<Nonce>>)
  {
    && sig.alpha == alpha && sig.package.message == message
    && sig.shares.Keys == sig.package.commitments.Keys == AsSet(ids)
    && forall id :: id in ids ==>
         && id in r1 && i < |r1[id]|
         && sig.package.commitments[id] == r1[id][i]
         && sig.shares[id] == Share(r1[id][i], sig.package, alpha)
  }

  /** A needed action has its authorising signature. */
  ghost predicate SignedAt(
      slots: seq<Slot>, needed: seq<Needs>, i: nat, message: seq<byte>, ids: seq<Identifier>,
      r1: map<Identifier, seq<Nonce>>, lib: Library)
    requires i < |needed|
  {
    && needed[i].index < |slots| && slots[needed[i].index].signature.Some?
    && Authorises(slots[needed[i].index].signature.value, i, needed[i].alpha, message, ids, r1)
    && lib.verifies(slots[needed[i].index].rk, message, slots[needed[i].index].signature.value)
  }

  /** Each needed action signed so far has its own. */
  ghost predicate SignedUpTo(
      slots: seq<Slot>, needed: seq<Needs>, upTo: nat, message: seq<byte>, ids: seq<Identifier>,
      r1: map<Identifier, seq<Nonce>>, lib: Library)
    requires upTo <= |needed|
  {
    forall i :: 0 <= i < upTo ==> SignedAt(slots, needed, i, message, ids, r1, lib)
  }

  /** One run's first round. */
  datatype Attempt = Attempt(
    custodians: seq<State>, request: nat, message: seq<byte>, alphas: seq<Randomizer>, now: nat,
    nonces: seq<seq<Nonce>>)

  function Answers(a: Attempt): map<Identifier, seq<Nonce>>
    requires |a.nonces| == |a.custodians|
  {
    Round1All(a.custodians, a.request, a.message, a.alphas, a.now, a.nonces).1
  }

  /** Distinct custodians, each of whom is handed a nonce for every action. */
  ghost predicate Ready(a: Attempt) {
    && |a.nonces| == |a.custodians| && DistinctIds(a.custodians) && AllWellFormed(a.custodians)
    && NoncesFit(a.nonces, a.alphas)
  }

  /** The packages of a run, one for each action. */
  function PackagesFor(r1: map<Identifier, seq<Nonce>>, ids: seq<Identifier>, count: nat, message: seq<byte>)
    : (packages: seq<Package>)
    ensures |packages| == count
  {
    seq(count, (i: nat) => Package(message, map id | id in ids && id in r1 && i < |r1[id]| :: r1[id][i]))
  }

  /** Its second round: the first custodians to have answered, by identifier, are
      asked with those packages. */
  function RoundTwo(a: Attempt, threshold: nat, lib: Library): (seq<State>, map<Identifier, seq<Share>>)
    requires Ready(a) && threshold <= |Answers(a)|
  {
    var (mid, r1) := Round1All(a.custodians, a.request, a.message, a.alphas, a.now, a.nonces);
    var ids := ChosenFrom(r1, threshold);
    StillWellFormed(a.custodians, a.request, a.message, a.alphas, a.now, a.nonces);
    Round2All(mid, a.request, ids, PackagesFor(r1, ids, |a.alphas|, a.message), lib.signs)
  }

  /** What the i-th shares are put together to. */
  function SigAt(
      packages: seq<Package>, r2: map<Identifier, seq<Share>>, ids: seq<Identifier>, alphas: seq<Randomizer>, i: nat)
    : Signature
    requires i < |packages| == |alphas|
  {
    Signature(packages[i], map id | id in ids && id in r2 && i < |r2[id]| :: r2[id][i], alphas[i])
  }

  function SigsOf(
      packages: seq<Package>, r2: map<Identifier, seq<Share>>, ids: seq<Identifier>, alphas: seq<Randomizer>)
    : (sigs: seq<Signature>)
    requires |packages| == |alphas|
    ensures |sigs| == |alphas| && forall i :: 0 <= i < |sigs| ==> sigs[i] == SigAt(packages, r2, ids, alphas, i)
  {
    seq(|alphas|, i requires 0 <= i < |alphas| => SigAt(packages, r2, ids, alphas, i))
  }

  /** The signatures of a run, one for each action. */
  function Sigs(a: Attempt, threshold: nat, lib: Library): seq<Signature>
    requires Ready(a) && threshold <= |Answers(a)|
  {
    var ids := ChosenFrom(Answers(a), threshold);
    SigsOf(PackagesFor(Answers(a), ids, |a.alphas|, a.message), RoundTwo(a, threshold, lib).1, ids, a.alphas)
  }

  /** The library makes a signature of the shares and the action's own key accepts it. */
  predicate Stands(sig: Signature, rk: nat, message: seq<byte>, lib: Library) {
    lib.combines(sig) && lib.decodes(sig) && lib.verifies(rk, message, sig)
  }

  ghost predicate StandAt(slots: seq<Slot>, needed: seq<Needs>, sigs: seq<Signature>, i: nat, message: seq<byte>,
                          lib: Library)
    requires i < |needed| == |sigs|
  {
    needed[i].index < |slots| && Stands(sigs[i], slots[needed[i].index].rk, message, lib)
  }

  ghost predicate AllStand(
      slots: seq<Slot>, needed: seq<Needs>, sigs: seq<Signature>, upTo: nat, message: seq<byte>, lib: Library)
    requires upTo <= |needed| == |sigs|
  {
    forall i :: 0 <= i < upTo ==> StandAt(slots, needed, sigs, i, message, lib)
  }

  /** The first so many needed actions signed. */
  function WithSigs(slots: seq<Slot>, needed: seq<Needs>, sigs: seq<Signature>, upTo: nat): (r: seq<Slot>)
    requires upTo <= |needed| == |sigs|
    ensures |r| == |slots|
  {
    if upTo == 0 then slots else
      var before := WithSigs(slots, needed, sigs, upTo - 1);
      var at := needed[upTo - 1].index;
      if at < |before| then before[at := before[at].(signature := Some(sigs[upTo - 1]))] else before
  }

  ghost predicate AllAnswer(ids: seq<Identifier>, r2: map<Identifier, seq<Share>>) {
    forall id :: id in ids ==> id in r2
  }

  /** Signed as far as the signatures stand, and no further. */
  ghost predicate SignedAsFar(
      before: seq<Slot>, after: seq<Slot>, needed: seq<Needs>, sigs: seq<Signature>, message: seq<byte>, lib: Library)
    requires |needed| == |sigs|
  {
    exists k :: 0 <= k <= |needed| && after == WithSigs(before, needed, sigs, k)
      && AllStand(before, needed, sigs, k, message, lib)
      && (k < |needed| ==> !StandAt(before, needed, sigs, k, message, lib))
  }

  /** `sign_all_with`, over the quorum in this process; `nonces` is what the random
      source hands out during round one. It succeeds exactly when enough custodians
      answer round one, the first of them all answer round two, and each action's
      signature stands; anything else is the one error, with the actions signed
      whose signatures stood before. */
  method SignAllWith(
      payout: Payout, message: seq<byte>, quorum: LocalQuorum, threshold: nat, now: nat, request: nat,
      nonces: seq<seq<Nonce>>, lib: Library)
    returns (r: Result<nat, PayoutError>, ghost ids: seq<Identifier>, ghost r1: map<Identifier, seq<Nonce>>)
    requires DistinctIds(quorum.participants) && AllWellFormed(quorum.participants) && |nonces| == |quorum.participants|
    requires NoncesFit(nonces, Alphas(NeedsSignatures(payout.slots, lib)))
    modifies payout, quorum
    ensures OnlySigned(old(payout.slots), payout.slots, NeedsSignatures(old(payout.slots), lib))
    ensures SameQuorum(old(quorum.participants), quorum.participants)
    ensures var needed := NeedsSignatures(old(payout.slots), lib);
            r.Ok? ==>
              && r.value == |needed|
              && (needed != [] ==>
                    && r1 == Round1All(old(quorum.participants), request, message, Alphas(needed), now, nonces).1
                    && threshold <= |r1| && ids == ChosenFrom(r1, threshold)
                    && SignedUpTo(payout.slots, needed, |needed|, message, ids, r1, lib))
    ensures NeedsSignatures(old(payout.slots), lib) == [] ==>
              r == Ok(0) && payout.slots == old(payout.slots) && quorum.participants == old(quorum.participants)
    ensures var needed := NeedsSignatures(old(payout.slots), lib);
            var a := Attempt(old(quorum.participants), request, message, Alphas(needed), now, nonces);
            needed != [] && |Answers(a)| < threshold ==>
              && r == Err(BadSignature) && payout.slots == old(payout.slots)
              && quorum.participants == Round1All(a.custodians, request, message, a.alphas, now, nonces).0
    ensures var needed := NeedsSignatures(old(payout.slots), lib);
            var a := Attempt(old(quorum.participants), request, message, Alphas(needed), now, nonces);
            needed != [] && threshold <= |Answers(a)| ==>
              var (end, r2) := RoundTwo(a, threshold, lib);
              var chosen, sigs := ChosenFrom(Answers(a), threshold), Sigs(a, threshold, lib);
              && quorum.participants == end
              && (r.Ok? <==> AllAnswer(chosen, r2) && AllStand(old(payout.slots), needed, sigs, |needed|, message, lib))
              && (r.Err? ==> r.error == BadSignature)
              && (AllAnswer(chosen, r2) ==> SignedAsFar(old(payout.slots), payout.slots, needed, sigs, message, lib))
              && (!AllAnswer(chosen, r2) ==> payout.slots == old(payout.slots))
  {
    ids, r1 := [], map[];
    var needed := NeedsSignatures(payout.slots, lib);
    if needed == [] {
      return Ok(0), ids, r1;
    }
    var alphas := Alphas(needed);
    ghost var a := Attempt(quorum.participants, request, message, alphas, now, nonces);
    var rounds := BothRounds(quorum, message, alphas, threshold, now, request, nonces, lib);
    if rounds.None? {
      return Err(BadSignature), ids, r1;
    }
    ids := rounds.value.chosen;
    r1 := Answers(a);
    r := Attach(payout, needed, alphas, rounds.value.packages, rounds.value.shares, rounds.value.chosen, message, r1,
                lib);
  }

  datatype Rounds = Rounds(chosen: seq<Identifier>, packages: seq<Package>, shares: map<Identifier, seq<Share>>)

  /** The two round trips, for all the actions at once. */
  method BothRounds(
      quorum: LocalQuorum, message: seq<byte>, alphas: seq<Randomizer>, threshold: nat, now: nat, request: nat,
      nonces: seq<seq<Nonce>>, lib: Library)
    returns (r: Option<Rounds>)
    requires DistinctIds(quorum.participants) && AllWellFormed(quorum.participants) && |nonces| == |quorum.participants|
    requires NoncesFit(nonces, alphas)
    modifies quorum
    ensures SameQuorum(old(quorum.participants), quorum.participants)
    ensures var a := Attempt(old(quorum.participants), request, message, alphas, now, nonces);
            if |Answers(a)| < threshold then
              r.None? && quorum.participants == Round1All(a.custodians, request, message, alphas, now, nonces).0
            else
              var (end, r2) := RoundTwo(a, threshold, lib);
              var chosen := ChosenFrom(Answers(a), threshold);
              && quorum.participants == end
              && (r.Some? <==> AllAnswer(chosen, r2))
              && (r.Some? ==> r.value == Rounds(chosen, PackagesFor(Answers(a), chosen, |alphas|, message), r2))
    ensures r.Some? ==>
              var r1 := Round1All(old(quorum.participants), request, message, alphas, now, nonces).1;
              && PackagesOf(r.value.packages, r1, r.value.chosen, message)
              && SharesFit(r.value.shares, r1, r.value.packages, alphas)
  {
    ghost var a := Attempt(quorum.participants, request, message, alphas, now, nonces);
    StillWellFormed(a.custodians, request, message, alphas, now, nonces);
    var first := quorum.Round1(request, message, alphas, now, nonces);
    ghost var between := quorum.participants;
    if |first| < threshold {
      return None;
    }
    var chosen := ChosenFrom(first, threshold);
    AnswersFit(a);
    var packages := BuildPackages(first, chosen, |alphas|, message);
    if packages.None? {
      return None;
    }
    PackagesAre(packages.value, first, chosen, message);
    RoundTwoIs(a, threshold, lib);
    StillWellFormedAfter2(between, request, chosen, packages.value, lib.signs);
    var second := quorum.Round2(request, chosen, packages.value, lib.signs);
    SameQuorumTwice(a.custodians, between, quorum.participants);
    if |second| < threshold {
      return None;
    }
    r := Some(Rounds(chosen, packages.value, second));
  }

  /** Every answer of round two is aligned with the same custodian's answer of round one. */
  ghost predicate SharesFit(
      r2: map<Identifier, seq<Share>>, r1: map<Identifier, seq<Nonce>>, packages: seq<Package>,
      alphas: seq<Randomizer>)
  {
    forall id :: id in r2 ==> id in r1 && Aligned(r1[id], r2[id], packages, alphas)
  }

  lemma AnswersFit(a: Attempt)
    requires Ready(a)
    ensures forall id :: id in Answers(a) ==> |Answers(a)[id]| == |a.alphas|
  {
    Round1Answers(a.custodians, a.request, a.message, a.alphas, a.now, a.nonces);
    var (mid, r1) := Round1All(a.custodians, a.request, a.message, a.alphas, a.now, a.nonces);
    forall id | id in r1 ensures |r1[id]| == |a.alphas| {
      var k :| 0 <= k < |a.custodians| && a.custodians[k].id == id;
      assert Answered1(a.custodians[k], mid[k], r1, a.request, a.message, a.alphas, a.now, a.nonces[k]);
    }
  }

  lemma PackagesAre(packages: seq<Package>, r1: map<Identifier, seq<Nonce>>, ids: seq<Identifier>, message: seq<byte>)
    requires PackagesOf(packages, r1, ids, message)
    ensures packages == PackagesFor(r1, ids, |packages|, message)
  {
    var others := PackagesFor(r1, ids, |packages|, message);
    forall i | 0 <= i < |packages| ensures packages[i] == others[i] {
      assert packages[i].commitments == others[i].commitments;
    }
  }

  /** The threshold is met in round two exactly when every chosen custodian answers. */
  lemma RoundTwoIs(a: Attempt, threshold: nat, lib: Library)
    requires Ready(a) && threshold <= |Answers(a)|
    ensures var r2 := RoundTwo(a, threshold, lib).1;
            var ids := ChosenFrom(Answers(a), threshold);
            && SharesFit(r2, Answers(a), PackagesFor(Answers(a), ids, |a.alphas|, a.message), a.alphas)
            && (threshold <= |r2| <==> AllAnswer(ids, r2))
  {
    var ids, r2 := ChosenFrom(Answers(a), threshold), RoundTwo(a, threshold, lib).1;
    RoundsAlign(a.custodians, a.request, a.message, a.alphas, a.now, a.nonces, ids,
                PackagesFor(Answers(a), ids, |a.alphas|, a.message), lib.signs);
    IncreasingCount(ids);
    AllOfThem(ids, r2);
  }

  lemma AllOfThem(ids: seq<Identifier>, r2: map<Identifier, seq<Share>>)
    requires |AsSet(ids)| == |ids| && forall id :: id in r2 ==> id in ids
    ensures r2.Keys <= AsSet(ids) && (|ids| <= |r2| <==> AllAnswer(ids, r2))
  {
    assert |r2| == |r2.Keys|;
    if |ids| <= |r2| {
      SameSize(r2.Keys, AsSet(ids));
    }
    if AllAnswer(ids, r2) {
      assert r2.Keys == AsSet(ids);
    }
  }

  lemma SameSize(a: set<Identifier>, b: set<Identifier>)
    requires a <= b && |b| <= |a|
    ensures a == b
  {
    assert a + (b - a) == b;
    assert |b - a| == 0;
    assert b - a == {};
  }

  lemma SameQuorumTwice(a: seq<State>, b: seq<State>, c: seq<State>)
    requires SameQuorum(a, b) && SameQuorum(b, c)
    ensures SameQuorum(a, c)
  {
  }

  function Alphas(needed: seq<Needs>): (alphas: seq<Randomizer>)
    ensures |alphas| == |needed| && forall i :: 0 <= i < |needed| ==> alphas[i] == needed[i].alpha
  {
    if needed == [] then [] else Alphas(needed[..|needed| - 1]) + [needed[|needed| - 1].alpha]
  }

  lemma SharesAuthorise(
      i: nat, alpha: Randomizer, packages: seq<Package>, alphas: seq<Randomizer>, shares: map<Identifier, Share>,
      ids: seq<Identifier>, r1: map<Identifier, seq<Nonce>>, r2: map<Identifier, seq<Share>>, message: seq<byte>)
    requires i < |packages| == |alphas| && alphas[i] == alpha && PackagesOf(packages, r1, ids, message)
    requires forall id :: id in r2 ==> id in r1 && Aligned(r1[id], r2[id], packages, alphas)
    requires shares.Keys == AsSet(ids) && forall id :: id in ids ==> id in r2 && i < |r2[id]| && shares[id] == r2[id][i]
    ensures Authorises(Signature(packages[i], shares, alpha), i, alpha, message, ids, r1)
  {
  }

  lemma SigIs(
      packages: seq<Package>, r2: map<Identifier, seq<Share>>, ids: seq<Identifier>, alphas: seq<Randomizer>, i: nat,
      shares: map<Identifier, Share>)
    requires i < |packages| == |alphas| && shares.Keys == AsSet(ids)
    requires forall id :: id in ids ==> id in r2 && i < |r2[id]| && shares[id] == r2[id][i]
    ensures SigsOf(packages, r2, ids, alphas)[i] == Signature(packages[i], shares, alphas[i])
  {
    assert SigAt(packages, r2, ids, alphas, i).shares == shares;
  }

  lemma StopsHere(
      slots: seq<Slot>, needed: seq<Needs>, sigs: seq<Signature>, i: nat, message: seq<byte>, lib: Library)
    requires i < |needed| == |sigs| && AllStand(slots, needed, sigs, i, message, lib)
    requires !StandAt(slots, needed, sigs, i, message, lib)
    ensures !AllStand(slots, needed, sigs, |needed|, message, lib)
    ensures SignedAsFar(slots, WithSigs(slots, needed, sigs, i), needed, sigs, message, lib)
  {
  }

  lemma RunsThrough(slots: seq<Slot>, needed: seq<Needs>, sigs: seq<Signature>, message: seq<byte>, lib: Library)
    requires |needed| == |sigs| && AllStand(slots, needed, sigs, |needed|, message, lib)
    ensures SignedAsFar(slots, WithSigs(slots, needed, sigs, |needed|), needed, sigs, message, lib)
  {
  }

  /** One turn of the last loop: the signature is put together, read and kept. */
  method AttachOne(payout: Payout, index: nat, message: seq<byte>, sig: Signature, lib: Library)
    returns (r: Result<(), PayoutError>)
    requires index < |payout.slots|
    modifies payout
    ensures r.Ok? <==> Stands(sig, old(payout.slots)[index].rk, message, lib)
    ensures r.Err? ==> r.error == BadSignature && payout.slots == old(payout.slots)
    ensures r.Ok? ==> payout.slots == old(payout.slots)[index := old(payout.slots)[index].(signature := Some(sig))]
  {
    if !lib.combines(sig) || !lib.decodes(sig) {
      return Err(BadSignature);
    }
    r := payout.Apply(index, message, sig, lib);
  }

  /** The last loop: aggregate each action's shares and attach the signature. */
  method Attach(
      payout: Payout, needed: seq<Needs>, alphas: seq<Randomizer>, packages: seq<Package>,
      r2: map<Identifier, seq<Share>>, ids: seq<Identifier>, message: seq<byte>,
      ghost r1: map<Identifier, seq<Nonce>>, lib: Library)
    returns (r: Result<nat, PayoutError>)
    requires |packages| == |alphas| == |needed| && PackagesOf(packages, r1, ids, message)
    requires forall i :: 0 <= i < |needed| ==> alphas[i] == needed[i].alpha
    requires forall i, j :: 0 <= i < j < |needed| ==> needed[i].index < needed[j].index
    requires forall i :: 0 <= i < |needed| ==> needed[i].index < |payout.slots|
    requires SharesFit(r2, r1, packages, alphas) && needed != []
    modifies payout
    ensures OnlySigned(old(payout.slots), payout.slots, needed)
    ensures r.Ok? ==> r.value == |needed| && SignedUpTo(payout.slots, needed, |needed|, message, ids, r1, lib)
    ensures var sigs := SigsOf(packages, r2, ids, alphas);
            && (r.Ok? <==> AllAnswer(ids, r2) && AllStand(old(payout.slots), needed, sigs, |needed|, message, lib))
            && (r.Err? ==> r.error == BadSignature)
            && (AllAnswer(ids, r2) ==> SignedAsFar(old(payout.slots), payout.slots, needed, sigs, message, lib))
            && (!AllAnswer(ids, r2) ==> payout.slots == old(payout.slots))
  {
    ghost var sigs := SigsOf(packages, r2, ids, alphas);
    ghost var slots, k := payout.slots, 0;
    r, k := AttachLoop(payout, needed, alphas, packages, r2, ids, message, sigs, r1, lib);
    OnlyThoseSigned(slots, needed, sigs, k);
    if r.Ok? {
      RunsThrough(slots, needed, sigs, message, lib);
      SigsAuthorise(packages, alphas, needed, ids, r1, r2, message);
      AllSigned(slots, needed, sigs, message, ids, r1, lib);
    } else if AllAnswer(ids, r2) {
      StopsHere(slots, needed, sigs, k, message, lib);
    }
  }

  method AttachLoop(
      payout: Payout, needed: seq<Needs>, alphas: seq<Randomizer>, packages: seq<Package>,
      r2: map<Identifier, seq<Share>>, ids: seq<Identifier>, message: seq<byte>, ghost sigs: seq<Signature>,
      ghost r1: map<Identifier, seq<Nonce>>, lib: Library)
    returns (r: Result<nat, PayoutError>, ghost k: nat)
    requires |packages| == |alphas| == |needed| == |sigs| && sigs == SigsOf(packages, r2, ids, alphas)
    requires forall i :: 0 <= i < |needed| ==> needed[i].index < |payout.slots|
    requires SharesFit(r2, r1, packages, alphas) && needed != []
    modifies payout
    ensures k <= |needed| && payout.slots == WithSigs(old(payout.slots), needed, sigs, k)
    ensures AllStand(old(payout.slots), needed, sigs, k, message, lib)
    ensures r.Ok? ==> r.value == |needed| == k && AllAnswer(ids, r2)
    ensures r.Err? ==> r.error == BadSignature && k < |needed|
    ensures r.Err? ==> if AllAnswer(ids, r2) then !StandAt(old(payout.slots), needed, sigs, k, message, lib) else k == 0
  {
    ghost var slots := payout.slots;
    var i := 0;
    k := 0;
    while i < |needed|
      invariant 0 <= i == k <= |needed| && (i > 0 ==> AllAnswer(ids, r2))
      invariant payout.slots == WithSigs(slots, needed, sigs, i) && AllStand(slots, needed, sigs, i, message, lib)
    {
      OnlyThoseSigned(slots, needed, sigs, i);
      SameKey(slots, payout.slots, needed, i);
      var sig := PutTogether(packages, r2, ids, alphas, i, r1);
      if sig.None? {
        return Err(BadSignature), k;
      }
      var one := AttachOne(payout, needed[i].index, message, sig.value, lib);
      if one.Err? {
        return Err(one.error), k;
      }
      i, k := i + 1, k + 1;
    }
    r := Ok(|needed|);
  }

  lemma SameKey(a: seq<Slot>, b: seq<Slot>, needed: seq<Needs>, i: nat)
    requires i < |needed| && OnlySigned(a, b, needed) && needed[i].index < |a|
    ensures needed[i].index < |b| && a[needed[i].index].rk == b[needed[i].index].rk
  {
  }

  /** The shares of the i-th action put together, once every chosen custodian has answered. */
  method PutTogether(
      packages: seq<Package>, r2: map<Identifier, seq<Share>>, ids: seq<Identifier>, alphas: seq<Randomizer>, i: nat,
      ghost r1: map<Identifier, seq<Nonce>>)
    returns (r: Option<Signature>)
    requires i < |packages| == |alphas| && SharesFit(r2, r1, packages, alphas)
    ensures r.Some? <==> AllAnswer(ids, r2)
    ensures r.Some? ==> r.value == SigsOf(packages, r2, ids, alphas)[i]
  {
    var shares := PickAt(r2, ids, i);
    assert forall id :: id in r2 ==> Aligned(r1[id], r2[id], packages, alphas);
    if shares.None? {
      return None;
    }
    SigIs(packages, r2, ids, alphas, i, shares.value);
    r := Some(Signature(packages[i], shares.value, alphas[i]));
  }

  lemma {:induction false} OnlyThoseSigned(slots: seq<Slot>, needed: seq<Needs>, sigs: seq<Signature>, k: nat)
    requires k <= |needed| == |sigs|
    ensures OnlySigned(slots, WithSigs(slots, needed, sigs, k), needed)
  {
    if k > 0 {
      OnlyThoseSigned(slots, needed, sigs, k - 1);
      assert needed[k - 1].index in Places(needed);
    }
  }

  /** Each signature is where its action is. */
  lemma {:induction false} SigsInPlace(slots: seq<Slot>, needed: seq<Needs>, sigs: seq<Signature>, k: nat, i: nat)
    requires i < k <= |needed| == |sigs| && forall j :: 0 <= j < |needed| ==> needed[j].index < |slots|
    requires forall i, j :: 0 <= i < j < |needed| ==> needed[i].index < needed[j].index
    ensures WithSigs(slots, needed, sigs, k)[needed[i].index].signature == Some(sigs[i])
    ensures WithSigs(slots, needed, sigs, k)[needed[i].index].rk == slots[needed[i].index].rk
  {
    OnlyThoseSigned(slots, needed, sigs, k);
    if i < k - 1 {
      SigsInPlace(slots, needed, sigs, k - 1, i);
    }
  }

  lemma SigsAuthorise(
      packages: seq<Package>, alphas: seq<Randomizer>, needed: seq<Needs>, ids: seq<Identifier>,
      r1: map<Identifier, seq<Nonce>>, r2: map<Identifier, seq<Share>>, message: seq<byte>)
    requires |packages| == |alphas| == |needed| && PackagesOf(packages, r1, ids, message)
    requires forall i :: 0 <= i < |needed| ==> alphas[i] == needed[i].alpha
    requires SharesFit(r2, r1, packages, alphas) && AllAnswer(ids, r2)
    ensures var sigs := SigsOf(packages, r2, ids, alphas);
            forall i :: 0 <= i < |needed| ==> Authorises(sigs[i], i, needed[i].alpha, message, ids, r1)
  {
    var sigs := SigsOf(packages, r2, ids, alphas);
    forall i | 0 <= i < |needed| ensures Authorises(sigs[i], i, needed[i].alpha, message, ids, r1) {
      SigAuthorises(packages, alphas, ids, r1, r2, message, i);
    }
  }

  lemma SigAuthorises(
      packages: seq<Package>, alphas: seq<Randomizer>, ids: seq<Identifier>, r1: map<Identifier, seq<Nonce>>,
      r2: map<Identifier, seq<Share>>, message: seq<byte>, i: nat)
    requires i < |packages| == |alphas| && PackagesOf(packages, r1, ids, message)
    requires SharesFit(r2, r1, packages, alphas) && AllAnswer(ids, r2)
    ensures Authorises(SigAt(packages, r2, ids, alphas, i), i, alphas[i], message, ids, r1)
  {
    var shares := SigAt(packages, r2, ids, alphas, i).shares;
    assert forall id :: id in ids ==> Aligned(r1[id], r2[id], packages, alphas);
    assert shares.Keys == AsSet(ids);
    SharesAuthorise(i, alphas[i], packages, alphas, shares, ids, r1, r2, message);
  }

  lemma OneSigned(
      slots: seq<Slot>, after: seq<Slot>, needed: seq<Needs>, sigs: seq<Signature>, i: nat, message: seq<byte>,
      ids: seq<Identifier>, r1: map<Identifier, seq<Nonce>>, lib: Library)
    requires i < |needed| == |sigs| && StandAt(slots, needed, sigs, i, message, lib) && |after| == |slots|
    requires after[needed[i].index].signature == Some(sigs[i])
    requires after[needed[i].index].rk == slots[needed[i].index].rk
    requires Authorises(sigs[i], i, needed[i].alpha, message, ids, r1)
    ensures SignedAt(after, needed, i, message, ids, r1, lib)
  {
  }

  lemma AllSigned(
      slots: seq<Slot>, needed: seq<Needs>, sigs: seq<Signature>, message: seq<byte>, ids: seq<Identifier>,
      r1: map<Identifier, seq<Nonce>>, lib: Library)
    requires |needed| == |sigs| && AllStand(slots, needed, sigs, |needed|, message, lib)
    requires forall i, j :: 0 <= i < j < |needed| ==> needed[i].index < needed[j].index
    requires forall j :: 0 <= j < |needed| ==> needed[j].index < |slots|
    requires forall i :: 0 <= i < |needed| ==> Authorises(sigs[i], i, needed[i].alpha, message, ids, r1)
    ensures SignedUpTo(WithSigs(slots, needed, sigs, |needed|), needed, |needed|, message, ids, r1, lib)
  {
    var after := WithSigs(slots, needed, sigs, |needed|);
    forall i | 0 <= i < |needed| ensures SignedAt(after, needed, i, message, ids, r1, lib) {
      SigsInPlace(slots, needed, sigs, |needed|, i);
      assert StandAt(slots, needed, sigs, i, message, lib);
      OneSigned(slots, after, needed, sigs, i, message, ids, r1, lib);
    }
  }

  // ------------------------------------------------------------ any two runs share a custodian

  ghost function Members(a: Attempt): set<Identifier> {
    set k | 0 <= k < |a.custodians| :: a.custodians[k].id
  }

  /** Enough custodians answered. */
  ghost predicate Reached(a: Attempt, threshold: nat) {
    |a.nonces| == |a.custodians| && DistinctIds(a.custodians) && threshold <= |Answers(a)|
  }

  /** The chosen of a run are custodians of the vault, and as many as the threshold. */
  lemma ChosenAreCustodians(a: Attempt, threshold: nat)
    requires Reached(a, threshold)
    ensures var ids := AsSet(ChosenFrom(Answers(a), threshold)); |ids| == threshold && ids <= Members(a)
  {
    var ids := ChosenFrom(Answers(a), threshold);
    IncreasingCount(ids);
    Round1Answers(a.custodians, a.request, a.message, a.alphas, a.now, a.nonces);
    forall id | id in ids ensures id in Members(a) {
      assert id in Answers(a);
    }
  }

  /** For any shape the ceremony accepts, whatever has happened to the custodians
      in between and whoever was reachable, the signers of any two runs that
      reached their threshold have a custodian in common. */
  lemma TwoRunsShareACustodian(shape: Ceremony.Shape, a: Attempt, b: Attempt)
    requires Ceremony.New(shape.threshold, shape.participants) == Ok(shape)
    requires Members(a) == Members(b) && |Members(a)| == shape.participants
    requires Reached(a, shape.threshold) && Reached(b, shape.threshold)
    ensures AsSet(ChosenFrom(Answers(a), shape.threshold)) * AsSet(ChosenFrom(Answers(b), shape.threshold)) != {}
  {
    ChosenAreCustodians(a, shape.threshold);
    ChosenAreCustodians(b, shape.threshold);
    Ceremony.MajorityExactlyWhenQuorumsMeet(shape.threshold, shape.participants);
    Ceremony.LargeSetsMeet(AsSet(ChosenFrom(Answers(a), shape.threshold)),
                           AsSet(ChosenFrom(Answers(b), shape.threshold)), Members(a));
  }
}
