/** Driving a quorum through the two rounds (src/signing.rs). */
module Signing {
  import opened Prelude
  import opened Custodian

  datatype SigningError = BelowThreshold | UnexpectedSigner | MessageMismatch | Crypto

  /** A signature, as the package it is over and the shares it was put together from. */
  datatype Signature = Signature(package: Package, shares: map<Identifier, Share>, alpha: Randomizer)

  // ------------------------------------------------------------ the aggregator

  /** The untrusted coordinator of the plain path, without a randomizer. */
  class Aggregator {
    const message: seq<byte>
    const threshold: nat
    var commitments: map<Identifier, Nonce>

    constructor (message: seq<byte>, threshold: nat)
      ensures this.message == message && this.threshold == threshold && commitments == map[]
    {
      this.message := message;
      this.threshold := threshold;
      commitments := map[];
    }

    method AddCommitment(id: Identifier, c: Nonce)
      modifies this
      ensures commitments == old(commitments)[id := c]
    {
      commitments := commitments[id := c];
    }

    /** One package for everyone, and only from enough commitments. */
    method GetPackage() returns (r: Result<Package, SigningError>)
      ensures r == if |commitments| >= threshold then Ok(Package(message, commitments)) else Err(BelowThreshold)
    {
      if |commitments| < threshold {
        return Err(BelowThreshold);
      }
      r := Ok(Package(message, commitments));
    }

    /** No signature from fewer shares than the threshold, or with a share of
        anyone who made no commitment. */
    method Aggregate(package: Package, shares: map<Identifier, Share>, combines: Signature -> bool)
      returns (r: Result<Signature, SigningError>)
      ensures r.Ok? <==>
                |shares| >= threshold && shares.Keys <= commitments.Keys && combines(Signature(package, shares, 0))
      ensures r.Ok? ==> r.value == Signature(package, shares, 0)
      ensures r == Err(BelowThreshold) <==> |shares| < threshold
      ensures r == Err(UnexpectedSigner) <==> |shares| >= threshold && !(shares.Keys <= commitments.Keys)
      ensures r.Err? && r.error != BelowThreshold && r.error != UnexpectedSigner ==> r == Err(SigningError.Crypto)
    {
      if |shares| < threshold {
        return Err(BelowThreshold);
      }
      var rest := shares.Keys;
      while rest != {}
        invariant rest <= shares.Keys
        invariant forall id :: id in shares.Keys - rest ==> id in commitments
        decreases |rest|
      {
        var id :| id in rest;
        if id !in commitments {
          return Err(UnexpectedSigner);
        }
        rest := rest - {id};
      }
      var s := Signature(package, shares, 0);
      if !combines(s) {
        return Err(SigningError.Crypto);
      }
      r := Ok(s);
    }
  }

  // ------------------------------------------------------------ the quorum in this process

  /** Whether the library signs for a custodian. */
  type SignsFor = (Identifier, Share) -> bool

  function For(signs: SignsFor, id: Identifier): Signs {
    (s: Share) => signs(id, s)
  }

  predicate AllWellFormed(ps: seq<State>) {
    forall k :: 0 <= k < |ps| ==> WellFormed(ps[k])
  }

  /** Round one, everywhere; who refuses is absent from the answers. */
  function Round1All(
      ps: seq<State>, request: nat, sighash: seq<byte>, alphas: seq<Randomizer>, now: nat, nonces: seq<seq<Nonce>>)
    : (seq<State>, map<Identifier, seq<Nonce>>)
    requires |nonces| == |ps|
  {
    if ps == [] then ([], map[]) else
      var n := |ps| - 1;
      var (before, out) := Round1All(ps[..n], request, sighash, alphas, now, nonces[..n]);
      var (p, r) := Round1Spec(ps[n], request, sighash, alphas, now, nonces[n]);
      (before + [p], if r.Ok? then out[p.id := r.value] else out)
  }

  /** Round two, of the chosen. */
  function Round2All(ps: seq<State>, request: nat, chosen: seq<Identifier>, packages: seq<Package>, signs: SignsFor)
    : (seq<State>, map<Identifier, seq<Share>>)
    requires AllWellFormed(ps)
  {
    if ps == [] then ([], map[]) else
      var n := |ps| - 1;
      var (before, out) := Round2All(ps[..n], request, chosen, packages, signs);
      if ps[n].id !in chosen then (before + [ps[n]], out) else
        var (p, _, r) := Round2Spec(ps[n], request, packages, For(signs, ps[n].id));
        (before + [p], if r.Ok? then out[p.id := r.value] else out)
  }

  ghost predicate DistinctIds(ps: seq<State>) {
    forall j, k :: 0 <= j < k < |ps| ==> ps[j].id != ps[k].id
  }

  /** Each custodian's own answer, and nobody else's, is filed under its identifier. */
  lemma {:induction false} Round1Answers(
      ps: seq<State>, request: nat, sighash: seq<byte>, alphas: seq<Randomizer>, now: nat, nonces: seq<seq<Nonce>>)
    requires |nonces| == |ps| && DistinctIds(ps)
    ensures var (after, out) := Round1All(ps, request, sighash, alphas, now, nonces);
            && |after| == |ps|
            && (forall k :: 0 <= k < |ps| ==> Answered1(ps[k], after[k], out, request, sighash, alphas, now, nonces[k]))
            && (forall id :: id in out ==> exists k :: 0 <= k < |ps| && ps[k].id == id)
  {
    if ps != [] {
      var n := |ps| - 1;
      Round1Answers(ps[..n], request, sighash, alphas, now, nonces[..n]);
      var (before, out) := Round1All(ps[..n], request, sighash, alphas, now, nonces[..n]);
      var (after, out') := Round1All(ps, request, sighash, alphas, now, nonces);
      forall k | 0 <= k < n ensures Answered1(ps[k], after[k], out', request, sighash, alphas, now, nonces[k]) {
        assert Answered1(ps[..n][k], before[k], out, request, sighash, alphas, now, nonces[..n][k]);
      }
      assert ps[n].id !in out;
    }
  }

  ghost predicate Answered1(
      p: State, after: State, out: map<Identifier, seq<Nonce>>, request: nat, sighash: seq<byte>,
      alphas: seq<Randomizer>, now: nat, nonces: seq<Nonce>)
  {
    var (s, r) := Round1Spec(p, request, sighash, alphas, now, nonces);
    after == s && (p.id in out <==> r.Ok?) && (r.Ok? ==> out[p.id] == r.value)
  }

  ghost predicate Answered2(
      p: State, after: State, out: map<Identifier, seq<Share>>, request: nat, chosen: seq<Identifier>,
      packages: seq<Package>, signs: SignsFor)
    requires WellFormed(p)
  {
    var (s, _, r) := Round2Spec(p, request, packages, For(signs, p.id));
    && after == (if p.id in chosen then s else p)
    && (p.id in out <==> p.id in chosen && r.Ok?)
    && (p.id in out ==> r.Ok? && out[p.id] == r.value)
  }

  lemma {:induction false} Round2Answers(
      ps: seq<State>, request: nat, chosen: seq<Identifier>, packages: seq<Package>, signs: SignsFor)
    requires AllWellFormed(ps) && DistinctIds(ps)
    ensures var (after, out) := Round2All(ps, request, chosen, packages, signs);
            && |after| == |ps|
            && (forall k :: 0 <= k < |ps| ==> Answered2(ps[k], after[k], out, request, chosen, packages, signs))
            && (forall id :: id in out ==> exists k :: 0 <= k < |ps| && ps[k].id == id)
  {
    if ps != [] {
      var n := |ps| - 1;
      Round2Answers(ps[..n], request, chosen, packages, signs);
      var (before, out) := Round2All(ps[..n], request, chosen, packages, signs);
      var (after, out') := Round2All(ps, request, chosen, packages, signs);
      assert ps[n].id !in out;
      forall k | 0 <= k < n ensures Answered2(ps[k], after[k], out', request, chosen, packages, signs) {
        assert Answered2(ps[..n][k], before[k], out, request, chosen, packages, signs);
      }
    }
  }

  /** What a custodian that answered both rounds returned: at each action's own
      index, a share made with the nonce it committed there in round one, over
      that action's package, under that action's randomizer. */
  ghost predicate Aligned(committed: seq<Nonce>, shares: seq<Share>, packages: seq<Package>, alphas: seq<Randomizer>) {
    && |committed| == |shares| == |packages| == |alphas|
    && forall i :: 0 <= i < |shares| ==> shares[i] == Share(committed[i], packages[i], alphas[i])
  }

  lemma BothRoundsOfOne(
      p: State, request: nat, sighash: seq<byte>, alphas: seq<Randomizer>, now: nat, nonces: seq<Nonce>,
      packages: seq<Package>, signs: Signs)
    requires |nonces| == |alphas| && WellFormed(p)
    requires Round1Spec(p, request, sighash, alphas, now, nonces).1.Ok?
    ensures var s := Round1Spec(p, request, sighash, alphas, now, nonces).0;
            && WellFormed(s)
            && var r := Round2Spec(s, request, packages, signs).2;
               r.Ok? ==> Aligned(nonces, r.value, packages, alphas)
  {
    var live := Live(sighash, alphas, Opened(nonces), now);
    if |packages| == |nonces| {
      SignEachIs(live, packages, signs);
    }
  }

  ghost predicate NoncesFit(nonces: seq<seq<Nonce>>, alphas: seq<Randomizer>) {
    forall k :: 0 <= k < |nonces| ==> |nonces[k]| == |alphas|
  }

  /** The same custodians in the same order, ready for another round. */
  ghost predicate SameQuorum(before: seq<State>, after: seq<State>) {
    && |after| == |before| && AllWellFormed(after) && DistinctIds(after)
    && forall k :: 0 <= k < |before| ==> after[k].id == before[k].id
  }

  lemma SameQuorumIs(before: seq<State>, after: seq<State>)
    requires DistinctIds(before) && |after| == |before|
    requires forall k :: 0 <= k < |before| ==> WellFormed(after[k]) && after[k].id == before[k].id
    ensures SameQuorum(before, after)
  {
  }

  lemma StillWellFormed(
      ps: seq<State>, request: nat, sighash: seq<byte>, alphas: seq<Randomizer>, now: nat, nonces: seq<seq<Nonce>>)
    requires |nonces| == |ps| && DistinctIds(ps) && AllWellFormed(ps) && NoncesFit(nonces, alphas)
    ensures SameQuorum(ps, Round1All(ps, request, sighash, alphas, now, nonces).0)
  {
    Round1Answers(ps, request, sighash, alphas, now, nonces);
    var (after, out) := Round1All(ps, request, sighash, alphas, now, nonces);
    forall k | 0 <= k < |ps| ensures WellFormed(after[k]) && after[k].id == ps[k].id {
      assert Answered1(ps[k], after[k], out, request, sighash, alphas, now, nonces[k]);
    }
    SameQuorumIs(ps, after);
  }

  lemma Round2Keeps(p: State, request: nat, packages: seq<Package>, signs: Signs)
    requires WellFormed(p)
    ensures var s := Round2Spec(p, request, packages, signs).0; WellFormed(s) && s.id == p.id
  {
  }

  lemma StillWellFormedAfter2(
      ps: seq<State>, request: nat, chosen: seq<Identifier>, packages: seq<Package>, signs: SignsFor)
    requires DistinctIds(ps) && AllWellFormed(ps)
    ensures SameQuorum(ps, Round2All(ps, request, chosen, packages, signs).0)
  {
    Round2Answers(ps, request, chosen, packages, signs);
    var (after, out) := Round2All(ps, request, chosen, packages, signs);
    forall k | 0 <= k < |ps| ensures WellFormed(after[k]) && after[k].id == ps[k].id {
      assert Answered2(ps[k], after[k], out, request, chosen, packages, signs);
      Round2Keeps(ps[k], request, packages, For(signs, ps[k].id));
    }
    SameQuorumIs(ps, after);
  }

  lemma OneAligned(
      p: State, mid: State, end: State, r1: map<Identifier, seq<Nonce>>, r2: map<Identifier, seq<Share>>,
      request: nat, sighash: seq<byte>, alphas: seq<Randomizer>, now: nat, nonces: seq<Nonce>,
      chosen: seq<Identifier>, packages: seq<Package>, signs: SignsFor)
    requires WellFormed(p) && WellFormed(mid) && |nonces| == |alphas|
    requires mid.id in r2 && (mid.id in chosen ==> mid.id in r1)
    requires Answered1(p, mid, r1, request, sighash, alphas, now, nonces)
    requires Answered2(mid, end, r2, request, chosen, packages, signs)
    ensures mid.id in chosen && mid.id in r1 && Aligned(r1[mid.id], r2[mid.id], packages, alphas)
  {
    BothRoundsOfOne(p, request, sighash, alphas, now, nonces, packages, For(signs, mid.id));
  }

  /** Through both rounds of a quorum nothing is crossed: every answer of round two
      is aligned with the same custodian's answer of round one, and that answer
      is the nonces it committed then. */
  lemma RoundsAlign(
      ps: seq<State>, request: nat, sighash: seq<byte>, alphas: seq<Randomizer>, now: nat, nonces: seq<seq<Nonce>>,
      chosen: seq<Identifier>, packages: seq<Package>, signs: SignsFor)
    requires |nonces| == |ps| && DistinctIds(ps) && AllWellFormed(ps) && NoncesFit(nonces, alphas)
    requires forall id :: id in chosen ==> id in Round1All(ps, request, sighash, alphas, now, nonces).1
    ensures var (mid, r1) := Round1All(ps, request, sighash, alphas, now, nonces);
            && AllWellFormed(mid)
            && var r2 := Round2All(mid, request, chosen, packages, signs).1;
               forall id :: id in r2 ==> id in chosen && id in r1 && Aligned(r1[id], r2[id], packages, alphas)
  {
    var (mid, r1) := Round1All(ps, request, sighash, alphas, now, nonces);
    StillWellFormed(ps, request, sighash, alphas, now, nonces);
    Round1Answers(ps, request, sighash, alphas, now, nonces);
    Round2Answers(mid, request, chosen, packages, signs);
    var (end, r2) := Round2All(mid, request, chosen, packages, signs);
    forall id | id in r2 ensures id in chosen && id in r1 && Aligned(r1[id], r2[id], packages, alphas) {
      var k :| 0 <= k < |mid| && mid[k].id == id;
      OneAligned(ps[k], mid[k], end[k], r1, r2, request, sighash, alphas, now, nonces[k], chosen, packages, signs);
    }
  }

  class LocalQuorum {
    var participants: seq<State>

    constructor (ids: seq<Identifier>)
      ensures |participants| == |ids| && AllWellFormed(participants)
      ensures forall k :: 0 <= k < |ids| ==> participants[k] == New(ids[k]).now
    {
      var ps: seq<State> := [];
      var k := 0;
      while k < |ids|
        invariant 0 <= k <= |ids| && |ps| == k
        invariant forall j :: 0 <= j < k ==> ps[j] == New(ids[j]).now
      {
        ps := ps + [State(ids[k], map[])];
        k := k + 1;
      }
      participants := ps;
    }

    /** `nonces[k]` is what the random source hands the k-th participant. */
    method Round1(request: nat, sighash: seq<byte>, alphas: seq<Randomizer>, now: nat, nonces: seq<seq<Nonce>>)
      returns (out: map<Identifier, seq<Nonce>>)
      requires |nonces| == |participants|
      modifies this
      ensures (participants, out) == Round1All(old(participants), request, sighash, alphas, now, nonces)
    {
      out := map[];
      ghost var start := participants;
      var ps: seq<State> := [];
      var k := 0;
      while k < |participants|
        invariant 0 <= k <= |participants| == |nonces| && participants == start
        invariant (ps, out) == Round1All(start[..k], request, sighash, alphas, now, nonces[..k])
      {
        assert start[..k + 1][..k] == start[..k] && nonces[..k + 1][..k] == nonces[..k];
        var (p, r) := Round1Spec(participants[k], request, sighash, alphas, now, nonces[k]);
        ps := ps + [p];
        if r.Ok? {
          out := out[p.id := r.value];
        }
        k := k + 1;
      }
      assert start[..k] == start && nonces[..k] == nonces;
      participants := ps;
    }

    method Round2(request: nat, chosen: seq<Identifier>, packages: seq<Package>, signs: SignsFor)
      returns (out: map<Identifier, seq<Share>>)
      requires AllWellFormed(participants)
      modifies this
      ensures (participants, out) == Round2All(old(participants), request, chosen, packages, signs)
    {
      out := map[];
      ghost var start := participants;
      var ps: seq<State> := [];
      var k := 0;
      while k < |participants|
        invariant 0 <= k <= |participants| && participants == start
        invariant (ps, out) == Round2All(start[..k], request, chosen, packages, signs)
      {
        assert start[..k + 1][..k] == start[..k];
        if participants[k].id in chosen {
          var (p, _, r) := Round2Spec(participants[k], request, packages, For(signs, participants[k].id));
          ps := ps + [p];
          if r.Ok? {
            out := out[p.id := r.value];
          }
        } else {
          ps := ps + [participants[k]];
        }
        k := k + 1;
      }
      assert start[..k] == start;
      participants := ps;
    }
  }
}
