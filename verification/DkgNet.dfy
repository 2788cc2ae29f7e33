/** The key ceremony over a blind relay (src/dkg_net.rs).

    A round-one package is a number, the secret behind it another; a round-two
    package is the record of whom it is from, whom it is for and the packages it
    was computed over. Sealing binds a plaintext to the two sealing keys, whose
    shared secret is the same from either side, and to a nonce that is always the
    same. */
module DkgNet {
  import opened Prelude
  import opened Ordered

  type Id = nat

  type Public = nat

  datatype Broadcast = Broadcast(id: Id, package: nat, sealPublic: Public)

  datatype Contribution = Contribution(from: Id, recipient: Id, over: map<Id, nat>)

  /** `keys` names the cipher key: it is made from the secret the two share. */
  datatype Ciphertext = Ciphertext(keys: set<Public>, nonce: nat, plain: Contribution)

  const SEAL_NONCE: nat := 0

  datatype CeremonyError = Incomplete | Crypto

  function Seal(mine: Public, theirs: Public, plain: Contribution): Ciphertext {
    Ciphertext({mine, theirs}, SEAL_NONCE, plain)
  }

  function Open(mine: Public, theirs: Public, ct: Ciphertext): (r: Option<Contribution>)
    ensures forall p :: ct == Seal(theirs, mine, p) ==> r == Some(p)
  {
    if ct.keys == {mine, theirs} && ct.nonce == SEAL_NONCE then Some(ct.plain) else None
  }

  /** What round three makes its share from. */
  datatype Keys = Keys(id: Id, packages: map<Id, nat>, contributions: map<Id, Contribution>)

  /** What the key-generation library goes on with: a round-one secret with the
      others' packages, and the contributions of round two with them. */
  datatype Library = Library(
    part2: (nat, map<Id, nat>) -> bool,
    part3: (nat, map<Id, nat>, map<Id, Contribution>) -> bool)

  /** The library among participants who all keep to the protocol. */
  const WILLING: Library := Library((_, _) => true, (_, _, _) => true)

  // ------------------------------------------------------------ the participant, on values

  datatype Dkg = Dkg(
    id: Id,
    participants: nat,
    sealPublic: Public,
    r1Secret: Option<nat>,
    r2Secret: Option<nat>,
    r1All: map<Id, nat>,
    sealPubs: map<Id, Public>)

  /** `part1`, with what the random source draws. */
  function Part1(id: Id, participants: nat, secret: nat, package: nat, sealPublic: Public): (Dkg, Broadcast) {
    (Dkg(id, participants, sealPublic, Some(secret), None, map[id := package], map[id := sealPublic]),
     Broadcast(id, package, sealPublic))
  }

  function Insert(d: Dkg, others: seq<Broadcast>): Dkg {
    if others == [] then d else
      var b := others[|others| - 1];
      var before := Insert(d, others[..|others| - 1]);
      before.(r1All := before.r1All[b.id := b.package], sealPubs := before.sealPubs[b.id := b.sealPublic])
  }

  /** The sealing key of everyone else is known. */
  predicate KnowsPeers(d: Dkg) {
    d.r1All.Keys - {d.id} <= d.sealPubs.Keys
  }

  /** One sealed package for each other participant. */
  function SealedFor(d: Dkg): map<Id, Ciphertext>
    requires KnowsPeers(d)
  {
    map k | k in d.r1All && k != d.id :: Seal(d.sealPublic, d.sealPubs[k], Contribution(d.id, k, d.r1All))
  }

  /** Everybody's packages but one's own. */
  function OthersOf(d: Dkg): map<Id, nat> {
    map k | k in d.r1All && k != d.id :: d.r1All[k]
  }

  /** `part2`. The round-one secret is taken once everyone's broadcast is there,
      whatever the library makes of it. */
  function Part2Spec(d: Dkg, others: seq<Broadcast>, lib: Library): (Dkg, Result<map<Id, Ciphertext>, CeremonyError>) {
    var all := Insert(d, others);
    if |all.r1All| != all.participants || all.r1Secret.None? then (all, Err(Incomplete))
    else if !lib.part2(all.r1Secret.value, OthersOf(all)) then (all.(r1Secret := None), Err(Crypto))
    else
      var used := all.(r1Secret := None, r2Secret := all.r1Secret);
      (used, if KnowsPeers(used) then Ok(SealedFor(used)) else Err(Incomplete))
  }

  lemma {:induction false} InsertKeepsSecrets(d: Dkg, others: seq<Broadcast>)
    ensures Insert(d, others).(r1All := d.r1All, sealPubs := d.sealPubs) == d
  {
    if others != [] {
      InsertKeepsSecrets(d, others[..|others| - 1]);
    }
  }

  /** One sealed package, opened: its sender's key must be known and fit. */
  function OpenFrom(d: Dkg, from: Id, ct: Ciphertext): Result<Contribution, CeremonyError> {
    if from !in d.sealPubs then Err(Incomplete) else
      match Open(d.sealPublic, d.sealPubs[from], ct)
      case None => Err(Crypto)
      case Some(plain) => Ok(plain)
  }

  /** The packages of these senders opened in turn; the first that cannot be stops it. */
  function Opened(d: Dkg, senders: seq<Id>, sealed: map<Id, Ciphertext>): Result<map<Id, Contribution>, CeremonyError>
    requires forall k :: k in senders ==> k in sealed
  {
    if senders == [] then Ok(map[]) else
      var from := senders[|senders| - 1];
      match Opened(d, senders[..|senders| - 1], sealed)
      case Err(e) => Err(e)
      case Ok(got) =>
        match OpenFrom(d, from, sealed[from])
        case Err(e) => Err(e)
        case Ok(plain) => Ok(got[from := plain])
  }

  /** The library's check of round two: one package from each other, for this
      participant, over the packages it holds itself. */
  predicate Accepts(d: Dkg, got: map<Id, Contribution>) {
    got.Keys == d.r1All.Keys - {d.id} && forall k :: k in got ==> got[k] == Contribution(k, d.id, d.r1All)
  }

  /** `part3`. The round-two secret is taken whatever follows. */
  function Part3Spec(d: Dkg, sealed: map<Id, Ciphertext>, lib: Library): (Dkg, Result<Keys, CeremonyError>) {
    if d.r2Secret.None? then (d, Err(Incomplete)) else
      var used := d.(r2Secret := None);
      match Opened(used, Ascending(sealed.Keys), sealed)
      case Err(e) => (used, Err(e))
      case Ok(got) =>
        if Accepts(used, got) && lib.part3(d.r2Secret.value, OthersOf(d), got) then (used, Ok(Keys(d.id, d.r1All, got)))
        else (used, Err(Crypto))
  }

  /** Each secret serves one round: once `part2` or `part3` has got as far as the
      library, whether it succeeds or not, a second call refuses. */
  lemma EachRoundOnce(
      d: Dkg, others: seq<Broadcast>, again: seq<Broadcast>, sealed: map<Id, Ciphertext>, more: map<Id, Ciphertext>,
      lib: Library)
    ensures Part2Spec(d, others, lib).1 != Err(Incomplete) ==>
              Part2Spec(Part2Spec(d, others, lib).0, again, lib).1 == Err(Incomplete)
    ensures Part3Spec(Part3Spec(d, sealed, lib).0, more, lib).1 == Err(Incomplete)
  {
    InsertKeepsSecrets(d, others);
    InsertKeepsSecrets(Part2Spec(d, others, lib).0, again);
  }

  // ------------------------------------------------------------ what each part is given

  /** The last of these broadcasts under an identifier. */
  function Latest(others: seq<Broadcast>, k: Id): Option<Broadcast> {
    if others == [] then None
    else if others[|others| - 1].id == k then Some(others[|others| - 1])
    else Latest(others[..|others| - 1], k)
  }

  /** Every identifier's package: the last broadcast under it, else what was held. */
  ghost predicate TakenIn(m: map<Id, nat>, before: map<Id, nat>, others: seq<Broadcast>) {
    forall k ::
      && (k in m <==> Latest(others, k).Some? || k in before)
      && (k in m ==> m[k] == if Latest(others, k).Some? then Latest(others, k).value.package else before[k])
  }

  /** And every identifier's sealing key. */
  ghost predicate SealsIn(m: map<Id, Public>, before: map<Id, Public>, others: seq<Broadcast>) {
    forall k ::
      && (k in m <==> Latest(others, k).Some? || k in before)
      && (k in m ==> m[k] == if Latest(others, k).Some? then Latest(others, k).value.sealPublic else before[k])
  }

  lemma {:induction false} InsertTakesIn(d: Dkg, others: seq<Broadcast>)
    ensures TakenIn(Insert(d, others).r1All, d.r1All, others)
    ensures SealsIn(Insert(d, others).sealPubs, d.sealPubs, others)
  {
    if others != [] {
      InsertTakesIn(d, others[..|others| - 1]);
    }
  }

  /** One's own package left out, and nothing else. */
  ghost predicate AllBut(rest: map<Id, nat>, m: map<Id, nat>, own: Id) {
    (forall k :: k in rest <==> k in m && k != own) && forall k :: k in rest ==> rest[k] == m[k]
  }

  /** For each of the others what it alone is to open: sealed between the two keys,
      from one to the other, over all the packages. */
  ghost predicate SealedToEach(
      sealed: map<Id, Ciphertext>, rest: map<Id, nat>, seals: map<Id, Public>, own: Id, mine: Public,
      m: map<Id, nat>)
  {
    && (forall k :: k in sealed <==> k in rest)
    && (forall k :: k in sealed ==>
          && k in seals && sealed[k].keys == {mine, seals[k]}
          && sealed[k].plain.from == own && sealed[k].plain.recipient == k && sealed[k].plain.over == m)
  }

  /** What `part2` is given and makes: with as many packages as participants, the
      library decides on the secret and the packages of the others, and on its word
      each of the others whose key is known is sealed its own. */
  lemma PartTwoGives(d: Dkg, others: seq<Broadcast>, lib: Library) returns (
      m: map<Id, nat>, seals: map<Id, Public>, rest: map<Id, nat>)
    ensures TakenIn(m, d.r1All, others) && SealsIn(seals, d.sealPubs, others) && AllBut(rest, m, d.id)
    ensures var (after, r) := Part2Spec(d, others, lib);
            && after.r1All == m && after.sealPubs == seals
            && (r == Err(Crypto) <==>
                  |m| == d.participants && d.r1Secret.Some? && !lib.part2(d.r1Secret.value, rest))
            && (r.Ok? <==>
                  |m| == d.participants && d.r1Secret.Some? && lib.part2(d.r1Secret.value, rest)
                    && forall k :: k in rest ==> k in seals)
            && (r.Ok? ==> SealedToEach(r.value, rest, seals, d.id, d.sealPublic, m) && after.r2Secret == d.r1Secret)
  {
    InsertTakesIn(d, others);
    InsertKeepsSecrets(d, others);
    var all := Insert(d, others);
    m, seals, rest := all.r1All, all.sealPubs, OthersOf(all);
    RestIs(all, rest);
    if all.r1Secret.Some? && lib.part2(all.r1Secret.value, rest) && KnowsPeers(all) {
      SealsEach(all.(r1Secret := None, r2Secret := all.r1Secret), rest);
    }
  }

  lemma RestIs(d: Dkg, rest: map<Id, nat>)
    requires rest == OthersOf(d)
    ensures AllBut(rest, d.r1All, d.id)
    ensures KnowsPeers(d) <==> forall k :: k in rest ==> k in d.sealPubs
  {
  }

  lemma SealsEach(d: Dkg, rest: map<Id, nat>)
    requires KnowsPeers(d) && AllBut(rest, d.r1All, d.id)
    ensures SealedToEach(SealedFor(d), rest, d.sealPubs, d.id, d.sealPublic, d.r1All)
  {
  }

  lemma {:induction false} OpenedAre(d: Dkg, senders: seq<Id>, sealed: map<Id, Ciphertext>)
    requires forall k :: k in senders ==> k in sealed
    ensures Opened(d, senders, sealed).Ok? <==> forall k :: k in senders ==> OpenFrom(d, k, sealed[k]).Ok?
    ensures Opened(d, senders, sealed).Ok? ==>
              var got := Opened(d, senders, sealed).value;
              && (forall k :: k in got <==> k in senders)
              && forall k :: k in got ==> OpenFrom(d, k, sealed[k]) == Ok(got[k])
  {
    if senders != [] {
      var n := |senders| - 1;
      OpenedAre(d, senders[..n], sealed);
      assert senders == senders[..n] + [senders[n]];
    }
  }

  /** A package addressed to a participant, under the key it shares with the sender,
      over the packages it holds itself. */
  predicate Fits(d: Dkg, from: Id, ct: Ciphertext) {
    && from in d.sealPubs && ct.keys == {d.sealPublic, d.sealPubs[from]} && ct.nonce == 0
    && ct.plain.from == from && ct.plain.recipient == d.id && ct.plain.over == d.r1All
  }

  ghost predicate AllFit(d: Dkg, sealed: map<Id, Ciphertext>) {
    forall k :: k in sealed ==> Fits(d, k, sealed[k])
  }

  /** What is in the sealed packages. */
  function Contents(sealed: map<Id, Ciphertext>): map<Id, Contribution> {
    map k | k in sealed :: sealed[k].plain
  }

  /** What `part3` is given and makes: with one package from each of the others that
      fits, the library decides on the secret, the packages of the others and what
      was opened; and the share is made of just those. */
  lemma PartThreeGives(d: Dkg, sealed: map<Id, Ciphertext>, lib: Library, rest: map<Id, nat>)
    requires AllBut(rest, d.r1All, d.id)
    ensures var r := Part3Spec(d, sealed, lib).1;
            && (r.Ok? <==>
                  && d.r2Secret.Some? && sealed.Keys == rest.Keys && AllFit(d, sealed)
                  && lib.part3(d.r2Secret.value, rest, Contents(sealed)))
            && (r.Ok? ==> r.value == Keys(d.id, d.r1All, Contents(sealed)))
  {
    if d.r2Secret.Some? {
      var used := d.(r2Secret := None);
      var senders: seq<Id> := Ascending(sealed.Keys);
      OpenedAre(used, senders, sealed);
      ReadIs(used, senders, sealed);
      AcceptedAre(used, sealed, rest);
      SameFit(d, used, sealed);
      PartThreeIs(d, used, senders, sealed, lib, rest);
    }
  }

  lemma SameFit(d: Dkg, used: Dkg, sealed: map<Id, Ciphertext>)
    requires used == d.(r2Secret := None)
    ensures AllFit(d, sealed) == AllFit(used, sealed) && CanOpen(d, sealed) == CanOpen(used, sealed)
  {
    assert forall k :: k in sealed ==> Fits(d, k, sealed[k]) == Fits(used, k, sealed[k]);
    assert forall k :: k in sealed ==> OpenFrom(d, k, sealed[k]) == OpenFrom(used, k, sealed[k]);
  }

  ghost predicate CanOpen(d: Dkg, sealed: map<Id, Ciphertext>) {
    forall k :: k in sealed ==> OpenFrom(d, k, sealed[k]).Ok?
  }

  lemma ReadIs(d: Dkg, senders: seq<Id>, sealed: map<Id, Ciphertext>)
    requires forall k :: k in senders <==> k in sealed
    ensures Opened(d, senders, sealed).Ok? <==> CanOpen(d, sealed)
    ensures CanOpen(d, sealed) ==> Opened(d, senders, sealed) == Ok(Contents(sealed))
  {
    OpenedAre(d, senders, sealed);
    if CanOpen(d, sealed) {
      assert Opened(d, senders, sealed).value == Contents(sealed);
    }
  }

  lemma FitsIs(d: Dkg, from: Id, ct: Ciphertext)
    ensures Fits(d, from, ct) <==> OpenFrom(d, from, ct).Ok? && ct.plain == Contribution(from, d.id, d.r1All)
  {
  }

  lemma AcceptedAre(d: Dkg, sealed: map<Id, Ciphertext>, rest: map<Id, nat>)
    requires AllBut(rest, d.r1All, d.id)
    ensures CanOpen(d, sealed) && Accepts(d, Contents(sealed)) <==> sealed.Keys == rest.Keys && AllFit(d, sealed)
  {
    forall k | k in sealed
      ensures Fits(d, k, sealed[k])
         <==> OpenFrom(d, k, sealed[k]).Ok? && sealed[k].plain == Contribution(k, d.id, d.r1All)
    {
      FitsIs(d, k, sealed[k]);
    }
    assert Contents(sealed).Keys == sealed.Keys && rest.Keys == d.r1All.Keys - {d.id};
  }

  lemma PartThreeIs(
      d: Dkg, used: Dkg, senders: seq<Id>, sealed: map<Id, Ciphertext>, lib: Library, rest: map<Id, nat>)
    requires d.r2Secret.Some? && used == d.(r2Secret := None) && AllBut(rest, d.r1All, d.id)
    requires senders == Ascending(sealed.Keys)
    ensures var (r, read) := (Part3Spec(d, sealed, lib).1, Opened(used, senders, sealed));
            && (r.Ok? <==> read.Ok? && Accepts(used, read.value) && lib.part3(d.r2Secret.value, rest, read.value))
            && (r.Ok? ==> r.value == Keys(d.id, d.r1All, read.value))
  {
    assert rest == OthersOf(d);
  }

  lemma {:induction false} OpeningStops(d: Dkg, senders: seq<Id>, k: nat, sealed: map<Id, Ciphertext>)
    requires k <= |senders| && forall j :: j in senders ==> j in sealed
    ensures Opened(d, senders[..k], sealed).Err? ==> Opened(d, senders, sealed) == Opened(d, senders[..k], sealed)
    decreases |senders|
  {
    if k < |senders| {
      var n := |senders| - 1;
      assert senders[..n][..k] == senders[..k];
      OpeningStops(d, senders[..n], k, sealed);
    } else {
      assert senders[..k] == senders;
    }
  }

  lemma OpeningNext(d: Dkg, senders: seq<Id>, k: nat, sealed: map<Id, Ciphertext>, got: map<Id, Contribution>)
    requires k < |senders| && forall j :: j in senders ==> j in sealed
    requires Opened(d, senders[..k], sealed) == Ok(got)
    ensures senders[k] in sealed
    ensures Opened(d, senders[..k + 1], sealed)
         == match OpenFrom(d, senders[k], sealed[senders[k]])
            case Err(e) => Err(e)
            case Ok(plain) => Ok(got[senders[k] := plain])
  {
    assert senders[k] in senders && senders[..k + 1][..k] == senders[..k];
  }

  function Collected(senders: seq<Id>, plain: map<Id, Contribution>): map<Id, Contribution>
    requires forall k :: k in senders ==> k in plain
  {
    if senders == [] then map[] else
      Collected(senders[..|senders| - 1], plain)[senders[|senders| - 1] := plain[senders[|senders| - 1]]]
  }

  lemma {:induction false} CollectedAll(senders: seq<Id>, plain: map<Id, Contribution>)
    requires forall k :: k in senders ==> k in plain
    ensures var got := Collected(senders, plain);
            (forall k :: k in got <==> k in senders) && forall k :: k in got ==> got[k] == plain[k]
  {
    if senders != [] {
      CollectedAll(senders[..|senders| - 1], plain);
    }
  }

  /** When every package opens, what is collected is what was put in. */
  lemma {:induction false} AllOpen(
      d: Dkg, senders: seq<Id>, sealed: map<Id, Ciphertext>, plain: map<Id, Contribution>)
    requires forall k :: k in senders ==> k in sealed && k in plain && OpenFrom(d, k, sealed[k]) == Ok(plain[k])
    ensures Opened(d, senders, sealed) == Ok(Collected(senders, plain))
  {
    if senders != [] {
      AllOpen(d, senders[..|senders| - 1], sealed, plain);
      assert senders[|senders| - 1] in senders;
    }
  }

  class DkgParticipant {
    const id: Id
    const participants: nat
    const sealPublic: Public
    var r1Secret: Option<nat>
    var r2Secret: Option<nat>
    var r1All: map<Id, nat>
    var sealPubs: map<Id, Public>

    ghost function Model(): Dkg
      reads this
    {
      Dkg(id, participants, sealPublic, r1Secret, r2Secret, r1All, sealPubs)
    }

    constructor (id: Id, participants: nat, secret: nat, package: nat, sealPublic: Public)
      ensures Model() == Part1(id, participants, secret, package, sealPublic).0
    {
      this.id, this.participants, this.sealPublic := id, participants, sealPublic;
      r1Secret, r2Secret := Some(secret), None;
      r1All, sealPubs := map[id := package], map[id := sealPublic];
    }

    method Part2(others: seq<Broadcast>, lib: Library) returns (r: Result<map<Id, Ciphertext>, CeremonyError>)
      modifies this
      ensures (Model(), r) == Part2Spec(old(Model()), others, lib)
    {
      ghost var start := Model();
      var k := 0;
      while k < |others|
        invariant 0 <= k <= |others| && Model() == Insert(start, others[..k])
      {
        assert others[..k + 1][..k] == others[..k];
        r1All := r1All[others[k].id := others[k].package];
        sealPubs := sealPubs[others[k].id := others[k].sealPublic];
        k := k + 1;
      }
      assert others[..k] == others;
      InsertKeepsSecrets(start, others);
      if |r1All| != participants {
        return Err(Incomplete);
      }
      if r1Secret.None? {
        return Err(Incomplete);
      }
      var secret := r1Secret.value;
      r1Secret := None;
      if !lib.part2(secret, OthersOf(Dkg(id, participants, sealPublic, None, None, r1All, sealPubs))) {
        return Err(Crypto);
      }
      r2Secret := Some(secret);
      var sealed := SealEach(Dkg(id, participants, sealPublic, r1Secret, r2Secret, r1All, sealPubs));
      r := if sealed.Some? then Ok(sealed.value) else Err(Incomplete);
    }

    method Part3(sealedForMe: map<Id, Ciphertext>, lib: Library) returns (r: Result<Keys, CeremonyError>)
      modifies this
      ensures (Model(), r) == Part3Spec(old(Model()), sealedForMe, lib)
    {
      if r2Secret.None? {
        return Err(Incomplete);
      }
      var secret := r2Secret.value;
      r2Secret := None;
      var me := Dkg(id, participants, sealPublic, r1Secret, r2Secret, r1All, sealPubs);
      var got := OpenEach(me, sealedForMe);
      if got.Err? {
        return Err(got.error);
      }
      if !Accepts(me, got.value) || !lib.part3(secret, OthersOf(me), got.value) {
        return Err(Crypto);
      }
      r := Ok(Keys(id, r1All, got.value));
    }
  }

  /** `part1`: a participant, and what it tells everybody. */
  method Begin(id: Id, participants: nat, secret: nat, package: nat, sealPublic: Public)
    returns (me: DkgParticipant, broadcast: Broadcast)
    ensures fresh(me) && (me.Model(), broadcast) == Part1(id, participants, secret, package, sealPublic)
    ensures broadcast.id == id && broadcast.package == package && broadcast.sealPublic == sealPublic
  {
    me := new DkgParticipant(id, participants, secret, package, sealPublic);
    broadcast := Broadcast(id, package, sealPublic);
  }

  /** The packages sealed so far, with `rest` still to go. */
  ghost predicate SealedBut(d: Dkg, sealed: map<Id, Ciphertext>, rest: set<Id>) {
    && rest <= d.r1All.Keys - {d.id}
    && sealed.Keys == d.r1All.Keys - {d.id} - rest && sealed.Keys <= d.sealPubs.Keys
    && forall x :: x in sealed ==> sealed[x] == Seal(d.sealPublic, d.sealPubs[x], Contribution(d.id, x, d.r1All))
  }

  lemma SealedOne(d: Dkg, sealed: map<Id, Ciphertext>, rest: set<Id>, next: Id)
    requires SealedBut(d, sealed, rest) && next in rest && next in d.sealPubs
    ensures SealedBut(d, sealed[next := Seal(d.sealPublic, d.sealPubs[next], Contribution(d.id, next, d.r1All))],
                      rest - {next})
  {
  }

  lemma AllSealed(d: Dkg, sealed: map<Id, Ciphertext>)
    requires SealedBut(d, sealed, {})
    ensures KnowsPeers(d) && sealed == SealedFor(d)
  {
  }

  /** The sealing loop of `part2`. */
  method SealEach(d: Dkg) returns (r: Option<map<Id, Ciphertext>>)
    ensures r == if KnowsPeers(d) then Some(SealedFor(d)) else None
  {
    var sealed: map<Id, Ciphertext> := map[];
    var rest := d.r1All.Keys - {d.id};
    while rest != {}
      invariant SealedBut(d, sealed, rest)
      decreases |rest|
    {
      var next :| next in rest;
      if next !in d.sealPubs {
        return None;
      }
      SealedOne(d, sealed, rest, next);
      sealed := sealed[next := Seal(d.sealPublic, d.sealPubs[next], Contribution(d.id, next, d.r1All))];
      rest := rest - {next};
    }
    AllSealed(d, sealed);
    r := Some(sealed);
  }

  /** The opening loop of `part3`: the first that cannot be opened stops it. */
  method OpenEach(d: Dkg, sealed: map<Id, Ciphertext>) returns (r: Result<map<Id, Contribution>, CeremonyError>)
    ensures r == Opened(d, Ascending(sealed.Keys), sealed)
  {
    var senders: seq<Id> := Ascending(sealed.Keys);
    var got: map<Id, Contribution> := map[];
    var k := 0;
    while k < |senders|
      invariant 0 <= k <= |senders| && Opened(d, senders[..k], sealed) == Ok(got)
    {
      OpeningNext(d, senders, k, sealed, got);
      var plain := OpenFrom(d, senders[k], sealed[senders[k]]);
      OpeningStops(d, senders, k + 1, sealed);
      if plain.Err? {
        return Err(plain.error);
      }
      got := got[senders[k] := plain.value];
      k := k + 1;
    }
    assert senders[..k] == senders;
    r := Ok(got);
  }

  // ------------------------------------------------------------ the relay

  datatype RelayState = RelayState(expected: nat, r1: map<Id, Broadcast>, r2: map<Id, map<Id, Ciphertext>>)

  /** A frame: one of the four, or one the relay cannot read. */
  datatype Request =
    | PostR1(broadcast: Broadcast)
    | GetR1
    | PostR2(from: Id, packages: map<Id, Ciphertext>)
    | GetR2(me: Id)
    | Malformed

  datatype Reply =
    | Done
    | Wait
    | AllR1(broadcasts: seq<Broadcast>)
    | ForMe(sealed: map<Id, Ciphertext>)
    | Refused

  function Values(keys: seq<Id>, r1: map<Id, Broadcast>): (bs: seq<Broadcast>)
    requires forall k :: k in keys ==> k in r1
    ensures |bs| == |keys| && forall i :: 0 <= i < |bs| ==> bs[i] == r1[keys[i]]
  {
    if keys == [] then [] else Values(keys[..|keys| - 1], r1) + [r1[keys[|keys| - 1]]]
  }

  /** Everything addressed to one participant, by sender. */
  function Addressed(r2: map<Id, map<Id, Ciphertext>>, me: Id): map<Id, Ciphertext> {
    map from | from in r2 && me in r2[from] :: r2[from][me]
  }

  function HandleSpec(s: RelayState, q: Request): (RelayState, Reply) {
    match q
    case PostR1(b) => (s.(r1 := s.r1[b.id := b]), Done)
    case GetR1 => (s, if |s.r1| < s.expected then Wait else AllR1(Values(Ascending(s.r1.Keys), s.r1)))
    case PostR2(from, packages) => (s.(r2 := s.r2[from := packages]), Done)
    case GetR2(me) => (s, if |s.r2| < s.expected then Wait else ForMe(Addressed(s.r2, me)))
    case Malformed => (s, Refused)
  }

  class Relay {
    const expected: nat
    var r1: map<Id, Broadcast>
    var r2: map<Id, map<Id, Ciphertext>>

    ghost function Model(): RelayState
      reads this
    {
      RelayState(expected, r1, r2)
    }

    constructor (expected: nat)
      ensures Model() == RelayState(expected, map[], map[])
    {
      this.expected := expected;
      r1, r2 := map[], map[];
    }

    method Handle(q: Request) returns (reply: Reply)
      modifies this
      ensures (Model(), reply) == HandleSpec(old(Model()), q)
    {
      match q {
        case PostR1(b) =>
          r1 := r1[b.id := b];
          reply := Done;
        case GetR1 =>
          if |r1| < expected {
            return Wait;
          }
          reply := AllR1(Values(Ascending(r1.Keys), r1));
        case PostR2(from, packages) =>
          r2 := r2[from := packages];
          reply := Done;
        case GetR2(me) =>
          if |r2| < expected {
            return Wait;
          }
          var mine: map<Id, Ciphertext> := map[];
          var rest := r2.Keys;
          while rest != {}
            invariant rest <= r2.Keys
            invariant forall f :: f in mine <==> f in r2 && f !in rest && me in r2[f]
            invariant forall f :: f in mine ==> mine[f] == r2[f][me]
            decreases |rest|
          {
            var from :| from in rest;
            if me in r2[from] {
              mine := mine[from := r2[from][me]];
            }
            rest := rest - {from};
          }
          assert mine == Addressed(r2, me);
          reply := ForMe(mine);
        case Malformed =>
          reply := Refused;
      }
    }
  }
}
