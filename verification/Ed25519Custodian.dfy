/** The Ed25519 twin (src/custodian.rs, module `ed25519`): one message, one nonce,
    no randomizer. It is the participant above with a single action. */
module Ed25519Custodian {
  import opened Prelude
  import C = Custodian

  datatype Live = Live(message: seq<byte>, session: Option<C.Nonce>, openedAt: nat)

  datatype State = State(id: C.Identifier, live: map<nat, Live>)

  /** The one randomizer of the twin's embedding: none. */
  const PLAIN: C.Randomizer := 0

  function AsLive(r: Live): C.Live {
    C.Live(r.message, [PLAIN], [r.session], r.openedAt)
  }

  lemma SignOne(r: C.Live, package: C.Package, signs: C.Signs)
    requires |r.sessions| == |r.alphas| == 1
    ensures C.SignEach(r, [package], signs) ==
              if r.sessions[0].None? then ([], Some(C.NoSuchRequest))
              else
                var share := C.Share(r.sessions[0].value, package, r.alphas[0]);
                ([share], if signs(share) then None else Some(C.Crypto))
  {
    var packages := [package];
    assert packages[..0] == [] && packages[0] == package;
    if r.sessions[0].Some? {
      var share := C.Share(r.sessions[0].value, package, r.alphas[0]);
      assert [] + [share] == [share];
    }
  }

  /** The participant it is. */
  function AsState(s: State): (t: C.State)
    ensures C.WellFormed(t)
  {
    C.State(s.id, map q | q in s.live :: AsLive(s.live[q]))
  }

  class Participant {
    const id: C.Identifier
    var live: map<nat, Live>

    ghost function Model(): State
      reads this
    {
      State(id, live)
    }

    constructor (id: C.Identifier)
      ensures AsState(Model()) == C.New(id).now
    {
      this.id := id;
      live := map[];
    }

    method DropExpired(now: nat)
      modifies this
      ensures AsState(Model()) == C.ExpireSpec(AsState(old(Model())), now)
    {
      live := map q | q in live && SatSub(now, live[q].openedAt) < C.REQUEST_TTL_SECS :: live[q];
    }

    method Round1(request: nat, message: seq<byte>, now: nat, nonce: C.Nonce)
      returns (r: Result<C.Nonce, C.CustodyError>)
      modifies this
      ensures var (after, answer) := C.Round1Spec(AsState(old(Model())), request, message, [PLAIN], now, [nonce]);
              && AsState(Model()) == after
              && answer == if r.Ok? then Ok([r.value]) else Err(r.error)
    {
      DropExpired(now);
      if request in live {
        return Err(C.AlreadyOpen);
      }
      live := live[request := Live(message, Some(nonce), now)];
      assert C.Opened([nonce]) == [Some(nonce)];
      r := Ok(nonce);
    }

    method Round2(request: nat, package: C.Package, signs: C.Signs) returns (r: Result<C.Share, C.CustodyError>)
      modifies this
      ensures var (after, _, answer) := C.Round2Spec(AsState(old(Model())), request, [package], signs);
              && AsState(Model()) == after
              && answer == if r.Ok? then Ok([r.value]) else Err(r.error)
    {
      if request !in live {
        return Err(C.NoSuchRequest);
      }
      var req := live[request];
      live := map q | q in live && q != request :: live[q];
      ghost var packages := [package];
      assert packages[0] == package;
      if package.message != req.message {
        assert packages[0].message != AsLive(req).sighash;
        return Err(C.WrongMessage);
      }
      assert !C.OtherMessage(AsLive(req), packages);
      SignOne(AsLive(req), package, signs);
      if req.session.None? {
        return Err(C.NoSuchRequest);
      }
      var share := C.Share(req.session.value, package, PLAIN);
      if !signs(share) {
        return Err(C.Crypto);
      }
      r := Ok(share);
    }
  }
}
