/** A signature of an Ed25519 vault (src/ed25519.rs, `sign_with`; the quorum of
    src/signing.rs): one message, one package, and the aggregator in between. */
module Ed25519Vault {
  import opened Prelude
  import opened Ordered
  import opened Custodian
  import opened Signing
  import opened Payout
  import E = Ed25519Custodian

  datatype VaultError = Failed(e: SigningError) | DoesNotVerify

  /** The library: a custodian's share, the aggregate, its bytes, and the ordinary verifier. */
  datatype Suite = Suite(
    signs: SignsFor,
    combines: Signature -> bool,
    decodes: Signature -> bool,
    verifies: (seq<byte>, Signature) -> bool)

  function Singles<T>(xs: seq<T>): (ys: seq<seq<T>>)
    ensures |ys| == |xs| && forall i :: 0 <= i < |xs| ==> ys[i] == [xs[i]]
  {
    seq(|xs|, i requires 0 <= i < |xs| => [xs[i]])
  }

  function SingleAnswers<T>(m: map<Identifier, T>): map<Identifier, seq<T>> {
    map id | id in m :: [m[id]]
  }

  function Heads<T>(m: map<Identifier, seq<T>>): map<Identifier, T> {
    map id | id in m && m[id] != [] :: m[id][0]
  }

  /** Answers of one element each, told as lists or not. */
  lemma SameAnswers<T>(m: map<Identifier, T>, all: map<Identifier, seq<T>>)
    requires SingleAnswers(m) == all
    ensures m.Keys == all.Keys && |m| == |all| && Heads(all) == m
  {
    assert m.Keys == all.Keys;
    assert |m| == |m.Keys| && |all| == |all.Keys|;
  }

  lemma SinglesNext<T>(xs: seq<T>, k: nat)
    requires k < |xs|
    ensures Singles(xs)[..k + 1][..k] == Singles(xs)[..k]
    ensures |Singles(xs)[..k + 1]| == k + 1 && Singles(xs)[..k + 1][k] == [xs[k]]
  {
  }

  lemma OneShare(s: State, request: nat, package: Package, signs: Signs)
    requires WellFormed(s)
    ensures var r := Round2Spec(s, request, [package], signs).2; r.Ok? ==> |r.value| == 1
  {
    if request in s.live && |s.live[request].sessions| == 1 {
      E.SignOne(s.live[request], package, signs);
    }
  }

  class LocalEd25519Quorum {
    var participants: seq<State>

    constructor (ids: seq<Identifier>)
      ensures |participants| == |ids| && AllWellFormed(participants)
      ensures forall k :: 0 <= k < |ids| ==> participants[k] == New(ids[k]).now
    {
      participants := seq(|ids|, k requires 0 <= k < |ids| => New(ids[k]).now);
    }

    method Round1(request: nat, message: seq<byte>, now: nat, nonces: seq<Nonce>)
      returns (out: map<Identifier, Nonce>)
      requires |nonces| == |participants|
      modifies this
      ensures (participants, SingleAnswers(out))
           == Round1All(old(participants), request, message, [E.PLAIN], now, Singles(nonces))
    {
      out := map[];
      ghost var start := participants;
      var ps: seq<State> := [];
      var k := 0;
      while k < |participants|
        invariant 0 <= k <= |participants| == |nonces| && participants == start
        invariant (ps, SingleAnswers(out))
               == Round1All(start[..k], request, message, [E.PLAIN], now, Singles(nonces)[..k])
      {
        assert start[..k + 1][..k] == start[..k];
        SinglesNext(nonces, k);
        var (p, r) := Round1Spec(participants[k], request, message, [E.PLAIN], now, [nonces[k]]);
        ps := ps + [p];
        if r.Ok? {
          ghost var before := SingleAnswers(out);
          out := out[p.id := nonces[k]];
          assert SingleAnswers(out) == before[p.id := [nonces[k]]];
        }
        k := k + 1;
      }
      assert start[..k] == start && Singles(nonces)[..k] == Singles(nonces);
      participants := ps;
    }

    method Round2(request: nat, chosen: seq<Identifier>, package: Package, signs: SignsFor)
      returns (out: map<Identifier, Share>)
      requires AllWellFormed(participants)
      modifies this
      ensures (participants, SingleAnswers(out)) == Round2All(old(participants), request, chosen, [package], signs)
    {
      out := map[];
      ghost var start := participants;
      var ps: seq<State> := [];
      var k := 0;
      while k < |participants|
        invariant 0 <= k <= |participants| && participants == start
        invariant (ps, SingleAnswers(out)) == Round2All(start[..k], request, chosen, [package], signs)
      {
        assert start[..k + 1][..k] == start[..k];
        if participants[k].id in chosen {
          var (p, _, r) := Round2Spec(participants[k], request, [package], For(signs, participants[k].id));
          OneShare(participants[k], request, package, For(signs, participants[k].id));
          ps := ps + [p];
          if r.Ok? {
            ghost var before := SingleAnswers(out);
            out := out[p.id := r.value[0]];
            assert r.value == [r.value[0]];
            assert SingleAnswers(out) == before[p.id := r.value];
          }
        } else {
          ps := ps + [participants[k]];
        }
        k := k + 1;
      }
      assert start[..k] == start;
      participants := ps;
    }
  }

  // ------------------------------------------------------------ one signature

  /** What a quorum is asked, and by what threshold. */
  datatype Ask = Ask(threshold: nat, message: seq<byte>, now: nat, request: nat, nonces: seq<Nonce>)

  ghost predicate Ready(ps: seq<State>, a: Ask) {
    |a.nonces| == |ps| && DistinctIds(ps) && AllWellFormed(ps)
  }

  function First(ps: seq<State>, a: Ask): (seq<State>, map<Identifier, seq<Nonce>>)
    requires |a.nonces| == |ps|
  {
    Round1All(ps, a.request, a.message, [E.PLAIN], a.now, Singles(a.nonces))
  }

  lemma FirstKeeps(ps: seq<State>, a: Ask)
    requires Ready(ps, a)
    ensures SameQuorum(ps, First(ps, a).0)
  {
    StillWellFormed(ps, a.request, a.message, [E.PLAIN], a.now, Singles(a.nonces));
  }

  function PackageOf(first: map<Identifier, seq<Nonce>>, ids: seq<Identifier>, message: seq<byte>): Package {
    Package(message, map id | id in ids && id in first && first[id] != [] :: first[id][0])
  }

  function Second(ps: seq<State>, a: Ask, lib: Suite): (seq<State>, map<Identifier, seq<Share>>)
    requires Ready(ps, a) && a.threshold <= |First(ps, a).1|
  {
    var (mid, first) := First(ps, a);
    FirstKeeps(ps, a);
    var ids := ChosenFrom(first, a.threshold);
    Round2All(mid, a.request, ids, [PackageOf(first, ids, a.message)], lib.signs)
  }

  /** The signature the shares of round two are put together to. */
  function Joined(ps: seq<State>, a: Ask, lib: Suite): Signature
    requires Ready(ps, a) && a.threshold <= |First(ps, a).1|
  {
    var first := First(ps, a).1;
    Signature(PackageOf(first, ChosenFrom(first, a.threshold), a.message), Heads(Second(ps, a, lib).1), E.PLAIN)
  }

  /** Whoever answers round two was chosen, and what it answers was made over the
      package with what it committed to in round one. */
  lemma SecondIsChosen(ps: seq<State>, a: Ask, lib: Suite)
    requires Ready(ps, a) && a.threshold <= |First(ps, a).1|
    ensures var first := First(ps, a).1;
            var ids := ChosenFrom(first, a.threshold);
            var packages := [PackageOf(first, ids, a.message)];
            forall id :: id in Second(ps, a, lib).1 ==>
              id in ids && id in first && Aligned(first[id], Second(ps, a, lib).1[id], packages, [E.PLAIN])
  {
    var first := First(ps, a).1;
    var ids := ChosenFrom(first, a.threshold);
    RoundsAlign(ps, a.request, a.message, [E.PLAIN], a.now, Singles(a.nonces), ids,
                [PackageOf(first, ids, a.message)], lib.signs);
  }

  lemma FirstIsSingle(ps: seq<State>, a: Ask)
    requires Ready(ps, a)
    ensures forall id :: id in First(ps, a).1 ==> |First(ps, a).1[id]| == 1
  {
    var (mid, first) := First(ps, a);
    Round1Answers(ps, a.request, a.message, [E.PLAIN], a.now, Singles(a.nonces));
    forall id | id in first ensures |first[id]| == 1 {
      var k :| 0 <= k < |ps| && ps[k].id == id;
      assert Answered1(ps[k], mid[k], first, a.request, a.message, [E.PLAIN], a.now, Singles(a.nonces)[k]);
    }
  }

  /** The threshold is met in round two exactly when every chosen custodian answers:
      one that stays silent then cannot be made up for by the others. */
  lemma EveryChosenMustAnswer(ps: seq<State>, a: Ask, lib: Suite)
    requires Ready(ps, a) && a.threshold <= |First(ps, a).1|
    ensures var ids := ChosenFrom(First(ps, a).1, a.threshold);
            var second := Second(ps, a, lib).1;
            && second.Keys <= AsSet(ids)
            && (a.threshold <= |second| <==> forall id :: id in ids ==> id in second)
  {
    var ids, second := ChosenFrom(First(ps, a).1, a.threshold), Second(ps, a, lib).1;
    SecondIsChosen(ps, a, lib);
    IncreasingCount(ids);
    AllOfThem(ids, second);
  }

  /** What is put together then is from the shares of exactly the chosen, each made
      over the one package with the nonce committed for it. */
  lemma JoinedAuthorises(ps: seq<State>, a: Ask, lib: Suite)
    requires Ready(ps, a) && a.threshold <= |First(ps, a).1| && a.threshold <= |Second(ps, a, lib).1|
    ensures var first := First(ps, a).1;
            Authorises(Joined(ps, a, lib), 0, E.PLAIN, a.message, ChosenFrom(first, a.threshold), first)
  {
    var first, second := First(ps, a).1, Second(ps, a, lib).1;
    var ids, s := ChosenFrom(first, a.threshold), Joined(ps, a, lib);
    EveryChosenMustAnswer(ps, a, lib);
    SecondIsChosen(ps, a, lib);
    FirstIsSingle(ps, a);
    AlignedAuthorises(s, ids, a.message, first, second);
  }

  lemma AlignedAuthorises(
      s: Signature, ids: seq<Identifier>, message: seq<byte>, first: map<Identifier, seq<Nonce>>,
      second: map<Identifier, seq<Share>>)
    requires s == Signature(PackageOf(first, ids, message), Heads(second), E.PLAIN)
    requires forall id :: id in second <==> id in ids
    requires forall id :: id in ids ==>
               id in first && |first[id]| == 1 && Aligned(first[id], second[id], [s.package], [E.PLAIN])
    ensures Authorises(s, 0, E.PLAIN, message, ids, first)
  {
    forall id | id in ids ensures id in s.shares && s.shares[id] == Share(first[id][0], s.package, E.PLAIN) {
      assert Aligned(first[id], second[id], [s.package], [E.PLAIN]);
    }
    assert s.shares.Keys == AsSet(ids) && s.package.commitments.Keys == AsSet(ids);
  }

  /** `sign_with`: a signature from the first custodians to answer, or why not. */
  function SignSpec(ps: seq<State>, a: Ask, lib: Suite): (seq<State>, Result<Signature, VaultError>)
    requires Ready(ps, a)
  {
    var (mid, first) := First(ps, a);
    if |first| < a.threshold then (mid, Err(Failed(BelowThreshold))) else
      var (end, second) := Second(ps, a, lib);
      var s := Joined(ps, a, lib);
      if |second| < a.threshold then (end, Err(Failed(BelowThreshold)))
      else if !lib.combines(s) then (end, Err(Failed(SigningError.Crypto)))
      else if !lib.decodes(s) || !lib.verifies(a.message, s) then (end, Err(DoesNotVerify))
      else (end, Ok(s))
  }

  /** The commitments of some of those that answered. */
  function Gathered(commitments: map<Identifier, Nonce>, ids: seq<Identifier>): map<Identifier, Nonce> {
    map id | id in ids && id in commitments :: commitments[id]
  }

  /** It signs exactly when enough custodians answer round one, each of the first of
      them answers round two, and what their shares make is a signature that
      verifies; and which error comes otherwise. */
  lemma SignsExactlyWhen(ps: seq<State>, a: Ask, lib: Suite)
    requires Ready(ps, a)
    ensures var (mid, first) := First(ps, a);
            var (after, r) := SignSpec(ps, a, lib);
            if |first| < a.threshold then after == mid && r == Err(Failed(BelowThreshold))
            else
              var (end, second) := Second(ps, a, lib);
              var answered := forall id :: id in ChosenFrom(first, a.threshold) ==> id in second;
              var s := Joined(ps, a, lib);
              && after == end
              && (r == Err(Failed(BelowThreshold)) <==> !answered)
              && (r == Err(Failed(SigningError.Crypto)) <==> answered && !lib.combines(s))
              && (r == Err(DoesNotVerify) <==>
                    answered && lib.combines(s) && !(lib.decodes(s) && lib.verifies(a.message, s)))
              && (r.Ok? <==> answered && lib.combines(s) && lib.decodes(s) && lib.verifies(a.message, s))
              && (r.Ok? ==> r.value == s)
  {
    if a.threshold <= |First(ps, a).1| {
      EveryChosenMustAnswer(ps, a, lib);
    }
  }

  /** Every chosen custodian's commitment handed to the aggregator. */
  method Gather(coord: Aggregator, commitments: map<Identifier, Nonce>, chosen: seq<Identifier>)
    requires coord.commitments == map[] && forall id :: id in chosen ==> id in commitments
    modifies coord
    ensures coord.commitments == Gathered(commitments, chosen)
  {
    var k := 0;
    while k < |chosen|
      invariant 0 <= k <= |chosen|
      invariant coord.commitments == Gathered(commitments, chosen[..k])
    {
      assert chosen[..k + 1] == chosen[..k] + [chosen[k]];
      coord.AddCommitment(chosen[k], commitments[chosen[k]]);
      k := k + 1;
    }
    assert chosen[..k] == chosen;
  }

  lemma GatheredKeys(commitments: map<Identifier, Nonce>, ids: seq<Identifier>)
    requires Increasing(ids) && forall id :: id in ids ==> id in commitments
    ensures Gathered(commitments, ids).Keys == AsSet(ids) && |Gathered(commitments, ids)| == |ids|
  {
    IncreasingCount(ids);
    var gathered := Gathered(commitments, ids);
    assert gathered.Keys == AsSet(ids) && |gathered| == |gathered.Keys|;
  }

  lemma SamePackage(
      commitments: map<Identifier, Nonce>, first: map<Identifier, seq<Nonce>>, ids: seq<Identifier>,
      message: seq<byte>)
    requires SingleAnswers(commitments) == first
    ensures PackageOf(first, ids, message) == Package(message, Gathered(commitments, ids))
  {
    assert PackageOf(first, ids, message).commitments == Gathered(commitments, ids);
  }

  lemma SameChosen(commitments: map<Identifier, Nonce>, first: map<Identifier, seq<Nonce>>, threshold: nat)
    requires SingleAnswers(commitments) == first && threshold <= |commitments| && |commitments| == |first|
    ensures ChosenFrom(first, threshold) == ChosenFrom(commitments, threshold)
  {
    assert first.Keys == commitments.Keys;
  }

  /** Round one, and the package for those who are to sign. */
  method Begin(quorum: LocalEd25519Quorum, coord: Aggregator, a: Ask)
    returns (r: Option<(seq<Identifier>, Package)>)
    requires Ready(quorum.participants, a) && coord.commitments == map[]
    requires coord.message == a.message && coord.threshold == a.threshold
    modifies quorum, coord
    ensures quorum.participants == First(old(quorum.participants), a).0
    ensures var first := First(old(quorum.participants), a).1;
            && (r.Some? <==> a.threshold <= |first|)
            && (r.Some? ==>
                  && r.value.0 == ChosenFrom(first, a.threshold)
                  && r.value.1 == PackageOf(first, r.value.0, a.message)
                  && coord.commitments.Keys == AsSet(r.value.0))
  {
    ghost var first := First(quorum.participants, a).1;
    var commitments := quorum.Round1(a.request, a.message, a.now, a.nonces);
    SameAnswers(commitments, first);
    if |commitments| < a.threshold {
      return None;
    }
    var chosen := ChosenFrom(commitments, a.threshold);
    SameChosen(commitments, first, a.threshold);
    SamePackage(commitments, first, chosen, a.message);
    GatheredKeys(commitments, chosen);
    Gather(coord, commitments, chosen);
    var package := coord.GetPackage();
    r := Some((chosen, package.value));
  }

  /** Round two, and the signature put together and checked. */
  method Conclude(
      quorum: LocalEd25519Quorum, coord: Aggregator, a: Ask, chosen: seq<Identifier>, package: Package, lib: Suite,
      ghost ps: seq<State>)
    returns (r: Result<Signature, VaultError>)
    requires Ready(ps, a) && a.threshold <= |First(ps, a).1| && quorum.participants == First(ps, a).0
    requires AllWellFormed(quorum.participants)
    requires chosen == ChosenFrom(First(ps, a).1, a.threshold)
    requires package == PackageOf(First(ps, a).1, chosen, a.message)
    requires coord.commitments.Keys == AsSet(chosen) && coord.threshold == a.threshold
    modifies quorum
    ensures (quorum.participants, r) == SignSpec(ps, a, lib)
  {
    EveryChosenMustAnswer(ps, a, lib);
    var shares := quorum.Round2(a.request, chosen, package, lib.signs);
    SameAnswers(shares, Second(ps, a, lib).1);
    if |shares| < a.threshold {
      return Err(Failed(BelowThreshold));
    }
    var sig := coord.Aggregate(package, shares, lib.combines);
    if sig.Err? {
      return Err(Failed(sig.error));
    }
    if !lib.decodes(sig.value) || !lib.verifies(a.message, sig.value) {
      return Err(DoesNotVerify);
    }
    r := Ok(sig.value);
  }

  method SignWith(quorum: LocalEd25519Quorum, a: Ask, lib: Suite) returns (r: Result<Signature, VaultError>)
    requires Ready(quorum.participants, a)
    modifies quorum
    ensures (quorum.participants, r) == SignSpec(old(quorum.participants), a, lib)
    ensures r.Ok? ==>
              var first := First(old(quorum.participants), a).1;
              && a.threshold <= |first| && lib.verifies(a.message, r.value)
              && Authorises(r.value, 0, E.PLAIN, a.message, ChosenFrom(first, a.threshold), first)
  {
    ghost var ps := quorum.participants;
    FirstKeeps(ps, a);
    var coord := new Aggregator(a.message, a.threshold);
    var begun := Begin(quorum, coord, a);
    if begun.None? {
      return Err(Failed(BelowThreshold));
    }
    r := Conclude(quorum, coord, a, begun.value.0, begun.value.1, lib, ps);
    if r.Ok? {
      JoinedAuthorises(ps, a, lib);
    }
  }
}
