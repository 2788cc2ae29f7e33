/** One share-holder's part in a distributed signature (src/custodian.rs).

    A nonce is named by the commitment it makes; the random source hands each
    out once. What the signing library computes is the record of what it was
    given, and whether it agrees is a parameter. */
module Custodian {
  import opened Prelude

  type Identifier = nat

  type Nonce = nat

  type Randomizer = nat

  /** What every chosen signer signs: the message and everyone's commitments. */
  datatype Package = Package(message: seq<byte>, commitments: map<Identifier, Nonce>)

  /** A signature share, as what went into it. */
  datatype Share = Share(nonce: Nonce, package: Package, alpha: Randomizer)

  /** Whether the library signs. */
  type Signs = Share -> bool

  const REQUEST_TTL_SECS: nat := 300

  datatype CustodyError = AlreadyOpen | NoSuchRequest | ShapeMismatch | WrongMessage | Crypto

  /** A request between its rounds. A session is taken when it signs. */
  datatype Live = Live(sighash: seq<byte>, alphas: seq<Randomizer>, sessions: seq<Option<Nonce>>, openedAt: nat)

  datatype State = State(id: Identifier, live: map<nat, Live>)

  // ------------------------------------------------------------ the operations, on values

  predicate Expired(r: Live, now: nat) {
    SatSub(now, r.openedAt) >= REQUEST_TTL_SECS
  }

  function ExpireSpec(s: State, now: nat): State {
    s.(live := map q | q in s.live && !Expired(s.live[q], now) :: s.live[q])
  }

  function Opened(nonces: seq<Nonce>): (ss: seq<Option<Nonce>>)
    ensures |ss| == |nonces| && forall i :: 0 <= i < |ss| ==> ss[i] == Some(nonces[i])
  {
    if nonces == [] then [] else Opened(nonces[..|nonces| - 1]) + [Some(nonces[|nonces| - 1])]
  }

  /** Round one, given the nonces the random source will hand out. */
  function Round1Spec(s: State, request: nat, sighash: seq<byte>, alphas: seq<Randomizer>, now: nat, nonces: seq<Nonce>)
    : (State, Result<seq<Nonce>, CustodyError>)
  {
    var kept := ExpireSpec(s, now);
    if request in kept.live then (kept, Err(AlreadyOpen))
    else (kept.(live := kept.live[request := Live(sighash, alphas, Opened(nonces), now)]), Ok(nonces))
  }

  /** The calls made on the signing library, up to the first it refuses; then
      whether it refused. A missing session stops them too. */
  function SignEach(r: Live, packages: seq<Package>, signs: Signs): (seq<Share>, Option<CustodyError>)
    requires |packages| <= |r.sessions| && |r.sessions| == |r.alphas|
  {
    if packages == [] then ([], None) else
      var i := |packages| - 1;
      var (calls, e) := SignEach(r, packages[..i], signs);
      if e.Some? then (calls, e)
      else if r.sessions[i].None? then (calls, Some(NoSuchRequest))
      else
        var share := Share(r.sessions[i].value, packages[i], r.alphas[i]);
        (calls + [share], if signs(share) then None else Some(Crypto))
  }

  predicate OtherMessage(r: Live, packages: seq<Package>) {
    exists i :: 0 <= i < |packages| && packages[i].message != r.sighash
  }

  /** Round two: the new state, the calls on the library, and the answer. */
  function Round2Spec(s: State, request: nat, packages: seq<Package>, signs: Signs)
    : (State, seq<Share>, Result<seq<Share>, CustodyError>)
    requires WellFormed(s)
  {
    if request !in s.live then (s, [], Err(NoSuchRequest)) else
      var r := s.live[request];
      var rest := s.(live := map q | q in s.live && q != request :: s.live[q]);
      if |packages| != |r.sessions| then (rest, [], Err(ShapeMismatch))
      else if OtherMessage(r, packages) then (rest, [], Err(WrongMessage))
      else
        var (calls, e) := SignEach(r, packages, signs);
        (rest, calls, if e.Some? then Err(e.value) else Ok(calls))
  }

  /** A session per action. */
  predicate WellFormed(s: State) {
    forall q :: q in s.live ==> |s.live[q].sessions| == |s.live[q].alphas|
  }

  // ------------------------------------------------------------ runs

  datatype Op =
    | Open(request: nat, sighash: seq<byte>, alphas: seq<Randomizer>, now: nat, nonces: seq<Nonce>)
    | Sign(request: nat, packages: seq<Package>)
    | Expire(now: nat)

  /** What a nonce was committed for. */
  datatype Purpose = Purpose(nonce: Nonce, sighash: seq<byte>, alpha: Randomizer)

  /** A participant, every nonce it has committed and every call it has made on
      the signing library. */
  datatype History = History(now: State, committed: seq<Purpose>, signed: seq<Share>)

  function Purposes(sighash: seq<byte>, alphas: seq<Randomizer>, nonces: seq<Nonce>): (ps: seq<Purpose>)
    requires |alphas| == |nonces|
    ensures |ps| == |nonces| && forall i :: 0 <= i < |ps| ==> ps[i] == Purpose(nonces[i], sighash, alphas[i])
  {
    if nonces == [] then [] else
      var n := |nonces| - 1;
      Purposes(sighash, alphas[..n], nonces[..n]) + [Purpose(nonces[n], sighash, alphas[n])]
  }

  predicate OpOk(op: Op) {
    op.Open? ==> |op.nonces| == |op.alphas|
  }

  function Step(h: History, op: Op, signs: Signs): (h': History)
    requires WellFormed(h.now) && OpOk(op)
    ensures WellFormed(h'.now)
  {
    match op
    case Open(request, sighash, alphas, now, nonces) =>
      var (s, r) := Round1Spec(h.now, request, sighash, alphas, now, nonces);
      h.(now := s, committed := h.committed + if r.Ok? then Purposes(sighash, alphas, nonces) else [])
    case Sign(request, packages) =>
      var (s, calls, _) := Round2Spec(h.now, request, packages, signs);
      h.(now := s, signed := h.signed + calls)
    case Expire(now) => h.(now := ExpireSpec(h.now, now))
  }

  // ------------------------------------------------------------ the invariant

  /** No session of an open request has been taken. */
  ghost predicate NoneTaken(r: Live) {
    |r.sessions| == |r.alphas| && forall i :: 0 <= i < |r.sessions| ==> r.sessions[i].Some?
  }

  ghost function NoncesOf(r: Live): set<Nonce> {
    set i | 0 <= i < |r.sessions| && r.sessions[i].Some? :: r.sessions[i].value
  }

  ghost predicate Unrepeated(r: Live) {
    forall i, j :: 0 <= i < j < |r.sessions| ==> r.sessions[i] != r.sessions[j]
  }

  /** What a request's nonces were committed for is what it will sign. */
  ghost predicate AsCommitted(r: Live, committed: seq<Purpose>) {
    forall i :: 0 <= i < |r.sessions| && i < |r.alphas| && r.sessions[i].Some? ==>
      Purpose(r.sessions[i].value, r.sighash, r.alphas[i]) in committed
  }

  ghost predicate Sound(r: Live, committed: seq<Purpose>) {
    NoneTaken(r) && Unrepeated(r) && AsCommitted(r, committed)
  }

  /** No nonce stands open in two requests. */
  ghost predicate Apart(s: State) {
    forall q, p :: q in s.live && p in s.live && q != p ==> NoncesOf(s.live[q]) !! NoncesOf(s.live[p])
  }

  ghost predicate SignedAsCommitted(signed: seq<Share>, committed: seq<Purpose>) {
    forall i :: 0 <= i < |signed| ==> Purpose(signed[i].nonce, signed[i].package.message, signed[i].alpha) in committed
  }

  ghost predicate SignedOnce(signed: seq<Share>) {
    forall i, j :: 0 <= i < j < |signed| ==> signed[i].nonce != signed[j].nonce
  }

  ghost function SignedNonces(signed: seq<Share>): set<Nonce> {
    set i | 0 <= i < |signed| :: signed[i].nonce
  }

  ghost predicate Disciplined(h: History) {
    && (forall q :: q in h.now.live ==> Sound(h.now.live[q], h.committed))
    && Apart(h.now)
    && (forall q :: q in h.now.live ==> NoncesOf(h.now.live[q]) !! SignedNonces(h.signed))
    && SignedAsCommitted(h.signed, h.committed) && SignedOnce(h.signed)
    && CommittedOnce(h.committed)
  }

  ghost predicate CommittedOnce(committed: seq<Purpose>) {
    forall i, j :: 0 <= i < j < |committed| ==> committed[i].nonce != committed[j].nonce
  }

  /** The random source: nonces never handed out before, and no two alike. */
  ghost predicate Fresh(nonces: seq<Nonce>, committed: seq<Purpose>) {
    && (forall i, j :: 0 <= i < j < |nonces| ==> nonces[i] != nonces[j])
    && (forall p :: p in committed ==> p.nonce !in nonces)
  }

  /** With no session taken the calls are one per package, in order, each with the
      nonce and the randomizer at its own index; only the library can stop them. */
  lemma {:induction false} SignEachIs(r: Live, packages: seq<Package>, signs: Signs)
    requires NoneTaken(r) && |packages| <= |r.sessions|
    ensures var (calls, e) := SignEach(r, packages, signs);
            && |calls| <= |packages| && (e.None? || e == Some(Crypto))
            && (e.None? ==> |calls| == |packages|)
            && (forall i :: 0 <= i < |calls| ==> calls[i] == Share(r.sessions[i].value, packages[i], r.alphas[i]))
            && (e.None? ==> forall i :: 0 <= i < |calls| ==> signs(calls[i]))
  {
    if packages != [] {
      SignEachIs(r, packages[..|packages| - 1], signs);
    }
  }

  // ------------------------------------------------------------ every step keeps it

  lemma FewerRequests(h: History, s: State)
    requires Disciplined(h) && s.live.Keys <= h.now.live.Keys && forall q :: q in s.live ==> s.live[q] == h.now.live[q]
    ensures Disciplined(h.(now := s))
  {
  }

  lemma StillCommitted(h: History, more: seq<Purpose>)
    requires Disciplined(h) && CommittedOnce(h.committed + more)
    ensures Disciplined(h.(committed := h.committed + more))
  {
    var committed := h.committed + more;
    assert forall p :: p in h.committed ==> p in committed;
    forall q | q in h.now.live ensures Sound(h.now.live[q], committed) {
      assert Sound(h.now.live[q], h.committed);
    }
  }

  lemma NewRequest(sighash: seq<byte>, alphas: seq<Randomizer>, now: nat, nonces: seq<Nonce>, committed: seq<Purpose>)
    requires |alphas| == |nonces| && Fresh(nonces, committed)
    ensures var r := Live(sighash, alphas, Opened(nonces), now);
            && Sound(r, committed + Purposes(sighash, alphas, nonces))
            && (forall n :: n in NoncesOf(r) ==> n in nonces)
  {
    var r := Live(sighash, alphas, Opened(nonces), now);
    var all := committed + Purposes(sighash, alphas, nonces);
    forall i | 0 <= i < |nonces| ensures Purpose(nonces[i], sighash, alphas[i]) in all {
      assert all[|committed| + i] == Purpose(nonces[i], sighash, alphas[i]);
    }
  }

  lemma CommittedOnceMore(committed: seq<Purpose>, sighash: seq<byte>, alphas: seq<Randomizer>, nonces: seq<Nonce>)
    requires |alphas| == |nonces| && CommittedOnce(committed) && Fresh(nonces, committed)
    ensures CommittedOnce(committed + Purposes(sighash, alphas, nonces))
  {
    forall i | 0 <= i < |committed| ensures committed[i].nonce !in nonces {
      assert committed[i] in committed;
    }
  }

  lemma OldNonces(h: History, q: nat, n: Nonce)
    requires Disciplined(h) && q in h.now.live && n in NoncesOf(h.now.live[q])
    ensures exists p :: p in h.committed && p.nonce == n
  {
    var r := h.now.live[q];
    var i :| 0 <= i < |r.sessions| && r.sessions[i].Some? && r.sessions[i].value == n;
    assert Purpose(n, r.sighash, r.alphas[i]) in h.committed;
  }

  lemma SignedNoncesAreOld(h: History, n: Nonce)
    requires Disciplined(h) && n in SignedNonces(h.signed)
    ensures exists p :: p in h.committed && p.nonce == n
  {
    var i :| 0 <= i < |h.signed| && h.signed[i].nonce == n;
    assert Purpose(n, h.signed[i].package.message, h.signed[i].alpha) in h.committed;
  }

  lemma OpeningKeeps(
      h: History, request: nat, sighash: seq<byte>, alphas: seq<Randomizer>, now: nat, nonces: seq<Nonce>)
    requires Disciplined(h) && request !in h.now.live && |alphas| == |nonces| && Fresh(nonces, h.committed)
    ensures var r := Live(sighash, alphas, Opened(nonces), now);
            Disciplined(History(h.now.(live := h.now.live[request := r]),
                                h.committed + Purposes(sighash, alphas, nonces), h.signed))
  {
    var r := Live(sighash, alphas, Opened(nonces), now);
    NewRequest(sighash, alphas, now, nonces, h.committed);
    CommittedOnceMore(h.committed, sighash, alphas, nonces);
    StillCommitted(h, Purposes(sighash, alphas, nonces));
    forall q | q in h.now.live ensures NoncesOf(h.now.live[q]) !! NoncesOf(r) {
      forall n | n in NoncesOf(h.now.live[q]) ensures n !in nonces {
        OldNonces(h, q, n);
      }
    }
    forall n | n in SignedNonces(h.signed) ensures n !in nonces {
      SignedNoncesAreOld(h, n);
    }
  }

  lemma SigningKeeps(h: History, request: nat, calls: seq<Share>)
    requires Disciplined(h) && request in h.now.live
    requires var r := h.now.live[request];
             && |calls| <= |r.sessions|
             && forall i :: 0 <= i < |calls| ==>
                  && r.sessions[i] == Some(calls[i].nonce) && calls[i].alpha == r.alphas[i]
                  && calls[i].package.message == r.sighash
    ensures var rest := map q | q in h.now.live && q != request :: h.now.live[q];
            Disciplined(History(h.now.(live := rest), h.committed, h.signed + calls))
  {
    var r := h.now.live[request];
    assert Sound(r, h.committed);
    forall n | n in SignedNonces(calls) ensures n in NoncesOf(r) {
      var i :| 0 <= i < |calls| && calls[i].nonce == n;
      assert r.sessions[i].value == n;
    }
    SignedTogether(h.signed, calls);
    SignedOnceMore(h.signed, calls, NoncesOf(r));
  }

  lemma SignedTogether(a: seq<Share>, b: seq<Share>)
    ensures SignedNonces(a + b) == SignedNonces(a) + SignedNonces(b)
  {
    forall i | 0 <= i < |b| ensures b[i].nonce in SignedNonces(a + b) {
      assert (a + b)[|a| + i] == b[i];
    }
    forall i | 0 <= i < |a| ensures a[i].nonce in SignedNonces(a + b) {
      assert (a + b)[i] == a[i];
    }
  }

  lemma SignedOnceMore(a: seq<Share>, b: seq<Share>, own: set<Nonce>)
    requires SignedOnce(a) && SignedOnce(b) && SignedNonces(b) <= own && own !! SignedNonces(a)
    ensures SignedOnce(a + b)
  {
    forall i, j | 0 <= i < |a| && 0 <= j < |b| ensures a[i].nonce != b[j].nonce {
      assert a[i].nonce in SignedNonces(a) && b[j].nonce in SignedNonces(b);
    }
  }

  lemma StepKeeps(h: History, op: Op, signs: Signs)
    requires Disciplined(h) && OpOk(op) && (op.Open? ==> Fresh(op.nonces, h.committed)) && WellFormed(h.now)
    ensures Disciplined(Step(h, op, signs))
  {
    match op {
      case Open(request, sighash, alphas, now, nonces) =>
        var kept := h.(now := ExpireSpec(h.now, now));
        FewerRequests(h, kept.now);
        if request !in kept.now.live {
          OpeningKeeps(kept, request, sighash, alphas, now, nonces);
        } else {
          assert h.committed + [] == h.committed;
        }
      case Sign(request, packages) =>
        SignKeeps(h, request, packages, signs);
      case Expire(now) =>
        FewerRequests(h, ExpireSpec(h.now, now));
    }
  }

  lemma SignKeeps(h: History, request: nat, packages: seq<Package>, signs: Signs)
    requires Disciplined(h) && WellFormed(h.now)
    ensures var (s, calls, _) := Round2Spec(h.now, request, packages, signs);
            Disciplined(History(s, h.committed, h.signed + calls))
  {
    assert h.signed + [] == h.signed;
    if request in h.now.live {
      var r := h.now.live[request];
      assert Sound(r, h.committed);
      if |packages| == |r.sessions| && !OtherMessage(r, packages) {
        SignEachIs(r, packages, signs);
        SigningKeeps(h, request, SignEach(r, packages, signs).0);
      } else {
        SigningKeeps(h, request, []);
      }
    }
  }

  // ------------------------------------------------------------ every run

  function New(id: Identifier): History {
    History(State(id, map[]), [], [])
  }

  predicate OpsOk(ops: seq<Op>) {
    forall i :: 0 <= i < |ops| ==> OpOk(ops[i])
  }

  function Run(id: Identifier, ops: seq<Op>, signs: Signs): (h: History)
    requires OpsOk(ops)
    ensures WellFormed(h.now)
  {
    if ops == [] then New(id) else Step(Run(id, ops[..|ops| - 1], signs), ops[|ops| - 1], signs)
  }

  // ------------------------------------------------------------ how long a request stays open

  /** The clock an operation is given, if it is. */
  function ClockOf(op: Op): Option<nat> {
    match op
    case Open(_, _, _, now, _) => Some(now)
    case Sign(_, _) => None
    case Expire(now) => Some(now)
  }

  predicate Names(op: Op, request: nat) {
    !op.Expire? && op.request == request
  }

  /** Every clock shown is less than three hundred seconds past the opening. */
  ghost predicate Young(ops: seq<Op>, openedAt: nat) {
    forall i :: 0 <= i < |ops| && ClockOf(ops[i]).Some? ==> ClockOf(ops[i]).value < openedAt + 300
  }

  lemma YoungNext(ops: seq<Op>, n: nat, openedAt: nat)
    requires |ops| == n + 1
    ensures Young(ops, openedAt) <==>
              Young(ops[..n], openedAt) && (ClockOf(ops[n]).Some? ==> ClockOf(ops[n]).value < openedAt + 300)
  {
    assert forall i :: 0 <= i < n ==> ops[..n][i] == ops[i];
  }

  lemma OneTick(h: History, op: Op, request: nat, signs: Signs)
    requires WellFormed(h.now) && OpOk(op) && !Names(op, request) && request in h.now.live
    ensures var later := Step(h, op, signs).now.live;
            && (request in later <==> ClockOf(op).Some? ==> ClockOf(op).value < h.now.live[request].openedAt + 300)
            && (request in later ==> later[request] == h.now.live[request])
  {
  }

  lemma GoneStaysGone(h: History, op: Op, request: nat, signs: Signs)
    requires WellFormed(h.now) && OpOk(op) && !Names(op, request) && request !in h.now.live
    ensures request !in Step(h, op, signs).now.live
  {
  }

  /** In every run, as long as no operation names it any more, an open request is as
      it was exactly while every clock shown is less than three hundred seconds past
      its opening. */
  lemma {:induction false} OpenExactlyWhileYoung(
      id: Identifier, ops: seq<Op>, more: seq<Op>, request: nat, signs: Signs)
    requires OpsOk(ops) && OpsOk(ops + more) && request in Run(id, ops, signs).now.live
    requires forall i :: 0 <= i < |more| ==> !Names(more[i], request)
    ensures var was, live := Run(id, ops, signs).now.live[request], Run(id, ops + more, signs).now.live;
            && (request in live <==> Young(more, was.openedAt))
            && (request in live ==> live[request] == was)
  {
    if more == [] {
      assert ops + more == ops;
    } else {
      var n := |more| - 1;
      RunNext(id, ops, more, n, signs);
      OpenExactlyWhileYoung(id, ops, more[..n], request, signs);
      YoungNext(more, n, Run(id, ops, signs).now.live[request].openedAt);
      var mid := Run(id, ops + more[..n], signs);
      if request in mid.now.live {
        OneTick(mid, more[n], request, signs);
      } else {
        GoneStaysGone(mid, more[n], request, signs);
      }
    }
  }

  lemma RunNext(id: Identifier, ops: seq<Op>, more: seq<Op>, n: nat, signs: Signs)
    requires |more| == n + 1 && OpsOk(ops + more)
    ensures OpsOk(ops + more[..n]) && OpOk(more[n])
    ensures Run(id, ops + more, signs) == Step(Run(id, ops + more[..n], signs), more[n], signs)
  {
    var all, front := ops + more, ops + more[..n];
    assert all[..|ops| + n] == front && all[|ops| + n] == more[n];
    assert forall i :: 0 <= i < |front| ==> front[i] == all[i];
  }

  /** A run records what it did: each round one that opens, the purposes of the nonces
      it answers with, and each round two, every share it answers with. */
  lemma RunRecords(id: Identifier, ops: seq<Op>, op: Op, signs: Signs)
    requires OpsOk(ops) && OpOk(op)
    ensures OpsOk(ops + [op])
    ensures var (h, after) := (Run(id, ops, signs), Run(id, ops + [op], signs));
            match op
            case Open(request, sighash, alphas, now, nonces) =>
              after.signed == h.signed
                && if Round1Spec(h.now, request, sighash, alphas, now, nonces).1.Ok? then
                     && |after.committed| == |h.committed| + |nonces|
                     && after.committed[..|h.committed|] == h.committed
                     && forall i :: 0 <= i < |nonces| ==>
                          after.committed[|h.committed| + i] == Purpose(nonces[i], sighash, alphas[i])
                   else after.committed == h.committed
            case Sign(request, packages) =>
              after.committed == h.committed && h.signed <= after.signed
                && var r := Round2Spec(h.now, request, packages, signs).2;
                   r.Ok? ==> after.signed == h.signed + r.value
            case Expire(_) => after.signed == h.signed && after.committed == h.committed
  {
    var all := ops + [op];
    assert all[..|ops|] == ops && all[|ops|] == op;
    assert forall i :: 0 <= i < |ops| ==> all[i] == ops[i];
  }

  /** Round one is refused exactly when a request of that id is open and young; else
      it opens one at the clock it is given, with the message, the randomizers and
      the nonces it answers with. */
  lemma RoundOneOpens(
      s: State, request: nat, sighash: seq<byte>, alphas: seq<Randomizer>, now: nat, nonces: seq<Nonce>)
    ensures var (after, r) := Round1Spec(s, request, sighash, alphas, now, nonces);
            && (r.Err? <==> request in s.live && now < s.live[request].openedAt + 300)
            && (r.Err? ==> r.error == AlreadyOpen && after.live[request] == s.live[request])
            && (r.Ok? ==>
                  && r.value == nonces && request in after.live
                  && after.live[request].openedAt == now && after.live[request].sighash == sighash
                  && after.live[request].alphas == alphas && |after.live[request].sessions| == |nonces|
                  && forall i :: 0 <= i < |nonces| ==> after.live[request].sessions[i] == Some(nonces[i]))
            && (forall q :: q != request ==> (q in after.live <==> q in s.live && now < s.live[q].openedAt + 300))
            && (forall q :: q != request && q in after.live ==> after.live[q] == s.live[q])
  {
  }

  // ------------------------------------------------------------ each nonce signs once

  /** Every nonce the random source hands out during a run. */
  function HandedOut(ops: seq<Op>): seq<Nonce> {
    if ops == [] then [] else
      HandedOut(ops[..|ops| - 1]) + if ops[|ops| - 1].Open? then ops[|ops| - 1].nonces else []
  }

  ghost predicate NoRepeats(ns: seq<Nonce>) {
    forall i, j :: 0 <= i < j < |ns| ==> ns[i] != ns[j]
  }

  lemma NoRepeatsParts(a: seq<Nonce>, b: seq<Nonce>)
    requires NoRepeats(a + b)
    ensures NoRepeats(a) && NoRepeats(b) && forall n :: n in a ==> n !in b
  {
    forall i, j | 0 <= i < |a| && 0 <= j < |b| ensures a[i] != b[j] {
      assert (a + b)[i] == a[i] && (a + b)[|a| + j] == b[j];
    }
    forall i, j | 0 <= i < j < |b| ensures b[i] != b[j] {
      assert (a + b)[|a| + i] == b[i] && (a + b)[|a| + j] == b[j];
    }
    forall i, j | 0 <= i < j < |a| ensures a[i] != a[j] {
      assert (a + b)[i] == a[i] && (a + b)[j] == a[j];
    }
  }

  /** Over every sequence of rounds and expiries, whatever requests they name and
      whatever packages they bring, each nonce is committed for one purpose,
      goes into at most one signing, and there signs the message fixed when it
      was committed, under the randomizer at its own index. */
  lemma {:induction false} EachNonceSignsOnce(id: Identifier, ops: seq<Op>, signs: Signs)
    requires OpsOk(ops) && NoRepeats(HandedOut(ops))
    ensures var h := Run(id, ops, signs);
            && Disciplined(h)
            && CommittedOnce(h.committed) && SignedOnce(h.signed) && SignedAsCommitted(h.signed, h.committed)
            && (forall p :: p in h.committed ==> p.nonce in HandedOut(ops))
  {
    if ops != [] {
      var front, op := ops[..|ops| - 1], ops[|ops| - 1];
      NoRepeatsParts(HandedOut(front), if op.Open? then op.nonces else []);
      EachNonceSignsOnce(id, front, signs);
      StepKeeps(Run(id, front, signs), op, signs);
      StepHandsOut(Run(id, front, signs), op, signs, HandedOut(front));
    }
  }

  lemma StepHandsOut(h: History, op: Op, signs: Signs, out: seq<Nonce>)
    requires WellFormed(h.now) && OpOk(op) && forall p :: p in h.committed ==> p.nonce in out
    ensures forall p :: p in Step(h, op, signs).committed ==> p.nonce in out + if op.Open? then op.nonces else []
  {
  }

  /** In every reachable state round two consumes the request it names, however it
      ends, and says there is no such request exactly when there is none: no
      session is ever found taken. */
  lemma RoundTwoConsumes(id: Identifier, ops: seq<Op>, request: nat, packages: seq<Package>, signs: Signs)
    requires OpsOk(ops) && NoRepeats(HandedOut(ops))
    ensures var s := Run(id, ops, signs).now;
            var (after, calls, r) := Round2Spec(s, request, packages, signs);
            && after.live.Keys == s.live.Keys - {request}
            && (forall q :: q in after.live ==> after.live[q] == s.live[q])
            && (r == Err(NoSuchRequest) <==> request !in s.live)
            && (r.Ok? ==>
                  |r.value| == |packages| && forall i :: 0 <= i < |r.value| ==> r.value[i].package == packages[i])
  {
    EachNonceSignsOnce(id, ops, signs);
    var h := Run(id, ops, signs);
    if request in h.now.live {
      assert Sound(h.now.live[request], h.committed);
      if |packages| == |h.now.live[request].sessions| {
        SignEachIs(h.now.live[request], packages, signs);
      }
    }
  }

  // ------------------------------------------------------------ the participant

  class Participant {
    const id: Identifier
    var live: map<nat, Live>

    ghost function Model(): State
      reads this
    {
      State(id, live)
    }

    ghost predicate Valid()
      reads this
    {
      forall q :: q in live ==> NoneTaken(live[q])
    }

    constructor (id: Identifier)
      ensures Model() == New(id).now && Valid()
    {
      this.id := id;
      live := map[];
    }

    /** The nonces the random source hands out are `nonces`. */
    method Round1(request: nat, sighash: seq<byte>, alphas: seq<Randomizer>, now: nat, nonces: seq<Nonce>)
      returns (r: Result<seq<Nonce>, CustodyError>)
      requires Valid() && |nonces| == |alphas|
      modifies this
      ensures Valid() && (Model(), r) == Round1Spec(old(Model()), request, sighash, alphas, now, nonces)
    {
      DropExpired(now);
      if request in live {
        return Err(AlreadyOpen);
      }
      var sessions: seq<Option<Nonce>> := [];
      var commitments: seq<Nonce> := [];
      var i := 0;
      while i < |alphas|
        invariant 0 <= i <= |alphas|
        invariant commitments == nonces[..i] && sessions == Opened(nonces[..i])
      {
        assert nonces[..i + 1][..i] == nonces[..i];
        commitments := commitments + [nonces[i]];
        sessions := sessions + [Some(nonces[i])];
        i := i + 1;
      }
      assert nonces[..i] == nonces;
      live := live[request := Live(sighash, alphas, sessions, now)];
      r := Ok(commitments);
    }

    method Round2(request: nat, packages: seq<Package>, signs: Signs) returns (r: Result<seq<Share>, CustodyError>)
      requires Valid()
      modifies this
      ensures Valid() && WellFormed(old(Model()))
      ensures var (after, _, answer) := Round2Spec(old(Model()), request, packages, signs);
              Model() == after && r == answer
    {
      if request !in live {
        return Err(NoSuchRequest);
      }
      var req := live[request];
      live := map q | q in live && q != request :: live[q];
      if |packages| != |req.sessions| {
        return Err(ShapeMismatch);
      }
      if exists i :: 0 <= i < |packages| && packages[i].message != req.sighash {
        return Err(WrongMessage);
      }
      r := SignAll(req, packages, signs);
    }

    method DropExpired(now: nat)
      modifies this
      ensures Model() == ExpireSpec(old(Model()), now)
    {
      live := map q | q in live && SatSub(now, live[q].openedAt) < REQUEST_TTL_SECS :: live[q];
    }
  }

  /** The signing loop of round two: each session is taken out of its slot. */
  method SignAll(req: Live, packages: seq<Package>, signs: Signs) returns (r: Result<seq<Share>, CustodyError>)
    requires |packages| == |req.sessions| == |req.alphas|
    ensures var (calls, e) := SignEach(req, packages, signs);
            r == if e.Some? then Err(e.value) else Ok(calls)
  {
    var sessions := req.sessions;
    var shares: seq<Share> := [];
    var i := 0;
    while i < |packages|
      invariant 0 <= i <= |packages| && |sessions| == |packages|
      invariant forall j :: i <= j < |packages| ==> sessions[j] == req.sessions[j]
      invariant SignEach(req, packages[..i], signs) == (shares, None)
    {
      assert packages[..i + 1][..i] == packages[..i];
      RefusalStops(req, packages, i + 1, signs);
      var session := sessions[i];
      sessions := sessions[i := None];
      if session.None? {
        return Err(NoSuchRequest);
      }
      var share := Share(session.value, packages[i], req.alphas[i]);
      if !signs(share) {
        return Err(Crypto);
      }
      shares := shares + [share];
      i := i + 1;
    }
    assert packages[..i] == packages;
    r := Ok(shares);
  }

  lemma {:induction false} RefusalStops(r: Live, packages: seq<Package>, k: nat, signs: Signs)
    requires k <= |packages| <= |r.sessions| && |r.sessions| == |r.alphas|
    ensures SignEach(r, packages[..k], signs).1.Some? ==>
              SignEach(r, packages, signs) == SignEach(r, packages[..k], signs)
    decreases |packages| - k
  {
    if k < |packages| {
      assert packages[..k + 1][..k] == packages[..k];
      RefusalStops(r, packages, k + 1, signs);
    } else {
      assert packages[..k] == packages;
    }
  }
}
