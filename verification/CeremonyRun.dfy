/** A whole key ceremony (src/dkg_net.rs, `participate_for`): any number of honest
    participants taking their steps in any order against one relay. */
module CeremonyRun {
  import opened Prelude
  import opened Ordered
  import opened DkgNet
  import C = Ceremony
  import I = Interleaving

  /** What each participant draws: its secret, its package and its sealing key. */
  datatype Draws = Draws(secret: Id -> nat, package: Id -> nat, seal: Id -> Public)

  datatype Phase =
    | Begun
    | Posted
    | Shared(sealed: map<Id, Ciphertext>)
    | Waiting
    | Finished(keys: Keys, received: map<Id, Ciphertext>)
    | Failed

  /** A participant between two of its calls, and how often it has run each part. */
  datatype Node = Node(phase: Phase, d: Dkg, part2s: nat, part3s: nat)

  datatype System = System(relay: RelayState, nodes: map<Id, Node>)

  function BroadcastOf(k: Id, w: Draws): Broadcast {
    Broadcast(k, w.package(k), w.seal(k))
  }

  function Fresh(k: Id, n: nat, w: Draws): Dkg {
    Part1(k, n, w.secret(k), w.package(k), w.seal(k)).0
  }

  /** What it posts first is what `part1` gave it to tell. */
  lemma FirstPost(k: Id, n: nat, w: Draws)
    ensures Part1(k, n, w.secret(k), w.package(k), w.seal(k)) == (Fresh(k, n, w), BroadcastOf(k, w))
  {
  }

  function Start(ids: set<Id>, w: Draws): System {
    System(RelayState(|ids|, map[], map[]), map k | k in ids :: Node(Begun, Fresh(k, |ids|, w), 0, 0))
  }

  /** Everyone's broadcast but one's own. */
  function Others(bs: seq<Broadcast>, me: Id): seq<Broadcast> {
    if bs == [] then [] else
      Others(bs[..|bs| - 1], me) + if bs[|bs| - 1].id != me then [bs[|bs| - 1]] else []
  }

  /** Round one has arrived: `part2`. */
  function AfterR1(node: Node, bs: seq<Broadcast>, me: Id): Node {
    var (d, r) := Part2Spec(node.d, Others(bs, me), WILLING);
    Node(if r.Ok? then Shared(r.value) else Failed, d, node.part2s + 1, node.part3s)
  }

  /** Round two has arrived: `part3`. */
  function AfterR2(node: Node, received: map<Id, Ciphertext>): Node {
    var (d, keys) := Part3Spec(node.d, received, WILLING);
    Node(if keys.Ok? then Finished(keys.value, received) else Failed, d, node.part2s, node.part3s + 1)
  }

  /** One call on the relay and what follows it locally. */
  function Turn(relay: RelayState, node: Node, me: Id, w: Draws): (RelayState, Node) {
    match node.phase
    case Begun => (HandleSpec(relay, PostR1(BroadcastOf(me, w))).0, node.(phase := Posted))
    case Posted =>
      (match HandleSpec(relay, GetR1).1
       case AllR1(bs) => (relay, AfterR1(node, bs, me))
       case _ => (relay, node))
    case Shared(sealed) => (HandleSpec(relay, PostR2(me, sealed)).0, node.(phase := Waiting))
    case Waiting =>
      (match HandleSpec(relay, GetR2(me)).1
       case ForMe(received) => (relay, AfterR2(node, received))
       case _ => (relay, node))
    case Finished(_, _) => (relay, node)
    case Failed => (relay, node)
  }

  function Step(s: System, me: Id, w: Draws): System {
    if me !in s.nodes then s else
      var (relay, node) := Turn(s.relay, s.nodes[me], me, w);
      System(relay, s.nodes[me := node])
  }

  // ------------------------------------------------------------ where everyone stands

  function AllPackages(ids: set<Id>, w: Draws): map<Id, nat> {
    map k | k in ids :: w.package(k)
  }

  function AllSeals(ids: set<Id>, w: Draws): map<Id, Public> {
    map k | k in ids :: w.seal(k)
  }

  /** One participant's sealed packages, by recipient. */
  function SealedBy(k: Id, ids: set<Id>, w: Draws): map<Id, Ciphertext> {
    map j | j in ids && j != k :: Seal(w.seal(k), w.seal(j), Contribution(k, j, AllPackages(ids, w)))
  }

  /** The packages sealed to one participant, by sender. */
  function SealedTo(k: Id, ids: set<Id>, w: Draws): map<Id, Ciphertext> {
    map j | j in ids && j != k :: Seal(w.seal(j), w.seal(k), Contribution(j, k, AllPackages(ids, w)))
  }

  function Gathered(k: Id, ids: set<Id>, w: Draws): Dkg {
    Dkg(k, |ids|, w.seal(k), None, Some(w.secret(k)), AllPackages(ids, w), AllSeals(ids, w))
  }

  function Level(p: Phase): nat {
    match p
    case Begun => 0
    case Posted => 1
    case Shared(_) => 2
    case Waiting => 3
    case Finished(_, _) => 4
    case Failed => 0
  }

  /** What was sealed to one participant, opened, by sender. */
  function ContributionsTo(k: Id, ids: set<Id>, w: Draws): map<Id, Contribution> {
    map j | j in ids && j != k :: Contribution(j, k, AllPackages(ids, w))
  }

  /** What round three makes its share from. */
  function KeysOf(k: Id, ids: set<Id>, w: Draws): Keys {
    Keys(k, AllPackages(ids, w), ContributionsTo(k, ids, w))
  }

  /** What a participant holds at each level. */
  function NodeAt(k: Id, level: nat, ids: set<Id>, w: Draws): Node {
    if level == 0 then Node(Begun, Fresh(k, |ids|, w), 0, 0)
    else if level == 1 then Node(Posted, Fresh(k, |ids|, w), 0, 0)
    else if level == 2 then Node(Shared(SealedBy(k, ids, w)), Gathered(k, ids, w), 1, 0)
    else if level == 3 then Node(Waiting, Gathered(k, ids, w), 1, 0)
    else Node(Finished(KeysOf(k, ids, w), SealedTo(k, ids, w)), Gathered(k, ids, w).(r2Secret := None), 1, 1)
  }

  ghost predicate NodeOk(k: Id, n: Node, ids: set<Id>, w: Draws) {
    n == NodeAt(k, Level(n.phase), ids, w)
  }

  ghost predicate NodesOk(nodes: map<Id, Node>, ids: set<Id>, w: Draws) {
    nodes.Keys == ids && forall k :: k in ids ==> NodeOk(k, nodes[k], ids, w)
  }

  /** The relay holds exactly what has been posted. */
  ghost predicate RelayOk(relay: RelayState, nodes: map<Id, Node>, ids: set<Id>, w: Draws) {
    && relay.expected == |ids|
    && (forall k :: k in relay.r1 <==> k in nodes && Level(nodes[k].phase) >= 1)
    && (forall k :: k in relay.r1 ==> relay.r1[k] == BroadcastOf(k, w))
    && (forall k :: k in relay.r2 <==> k in nodes && Level(nodes[k].phase) >= 3)
    && (forall k :: k in relay.r2 ==> relay.r2[k] == SealedBy(k, ids, w))
  }

  /** Every participant is where an undisturbed ceremony would have it. */
  ghost predicate Sound(s: System, ids: set<Id>, w: Draws) {
    NodesOk(s.nodes, ids, w) && RelayOk(s.relay, s.nodes, ids, w)
  }

  // ------------------------------------------------------------ gathering round one

  lemma {:induction false} FullSubset(a: set<Id>, b: set<Id>)
    requires a <= b && |a| >= |b|
    ensures a == b
  {
    if b != {} {
      var x :| x in b;
      if x in a {
        FullSubset(a - {x}, b - {x});
      } else {
        C.SubsetSize(a, b - {x});
      }
    }
  }

  /** The participant holds the broadcasts of `from`, and no others. */
  ghost predicate Holds(d: Dkg, from: set<Id>, w: Draws) {
    d.r1All == AllPackages(from, w) && d.sealPubs == AllSeals(from, w)
  }

  ghost function IdsOf(bs: seq<Broadcast>): set<Id> {
    set i | 0 <= i < |bs| :: bs[i].id
  }

  lemma {:induction false} InsertHolds(d: Dkg, bs: seq<Broadcast>, from: set<Id>, w: Draws)
    requires Holds(d, from, w) && forall i :: 0 <= i < |bs| ==> bs[i] == BroadcastOf(bs[i].id, w)
    ensures Holds(Insert(d, bs), from + IdsOf(bs), w)
  {
    if bs == [] {
      assert from + IdsOf(bs) == from;
    } else {
      var n := |bs| - 1;
      InsertHolds(d, bs[..n], from, w);
      IdsNext(bs);
      HoldsNext(Insert(d, bs[..n]), bs[n].id, from + IdsOf(bs[..n]), w);
      assert from + IdsOf(bs) == (from + IdsOf(bs[..n])) + {bs[n].id};
    }
  }

  lemma IdsNext(bs: seq<Broadcast>)
    requires bs != []
    ensures IdsOf(bs) == IdsOf(bs[..|bs| - 1]) + {bs[|bs| - 1].id}
  {
    var n := |bs| - 1;
    forall i | 0 <= i < n ensures bs[i].id in IdsOf(bs[..n]) {
      assert bs[..n][i] == bs[i];
    }
    assert bs[n].id in IdsOf(bs);
  }

  lemma HoldsNext(d: Dkg, k: Id, from: set<Id>, w: Draws)
    requires Holds(d, from, w)
    ensures Holds(d.(r1All := d.r1All[k := w.package(k)], sealPubs := d.sealPubs[k := w.seal(k)]), from + {k}, w)
  {
  }

  lemma {:induction false} OthersAre(bs: seq<Broadcast>, me: Id, w: Draws)
    requires forall i :: 0 <= i < |bs| ==> bs[i] == BroadcastOf(bs[i].id, w)
    ensures IdsOf(Others(bs, me)) == IdsOf(bs) - {me}
    ensures var os := Others(bs, me); forall i :: 0 <= i < |os| ==> os[i] == BroadcastOf(os[i].id, w)
  {
    if bs != [] {
      var n := |bs| - 1;
      OthersAre(bs[..n], me, w);
      IdsNext(bs);
      if bs[n].id != me {
        var os := Others(bs, me);
        IdsNext(os);
        assert os[..|os| - 1] == Others(bs[..n], me);
      } else {
        assert Others(bs, me) == Others(bs[..n], me);
      }
    }
  }

  lemma ValuesAre(keys: seq<Id>, r1: map<Id, Broadcast>, w: Draws)
    requires forall k :: k in keys ==> k in r1 && r1[k] == BroadcastOf(k, w)
    ensures var bs := Values(keys, r1);
            && (forall k :: k in IdsOf(bs) <==> k in keys)
            && (forall i :: 0 <= i < |bs| ==> bs[i] == BroadcastOf(bs[i].id, w))
  {
    var bs := Values(keys, r1);
    forall i | 0 <= i < |bs| ensures bs[i] == BroadcastOf(keys[i], w) {
      assert keys[i] in keys;
    }
    forall k | k in keys ensures k in IdsOf(bs) {
      var i :| 0 <= i < |keys| && keys[i] == k;
      assert bs[i].id == k;
    }
  }

  /** What the relay hands out when every broadcast is there. */
  function Handed(r1: map<Id, Broadcast>, k: Id): seq<Broadcast> {
    Others(Values(Ascending(r1.Keys), r1), k)
  }

  lemma HandedHolds(k: Id, r1: map<Id, Broadcast>, ids: set<Id>, w: Draws)
    requires k in ids && r1.Keys == ids && forall j :: j in r1 ==> r1[j] == BroadcastOf(j, w)
    ensures Holds(Insert(Fresh(k, |ids|, w), Handed(r1, k)), ids, w)
  {
    var keys: seq<nat> := Ascending(r1.Keys);
    ValuesAre(keys, r1, w);
    InsertedHold(k, Values(keys, r1), ids, w);
  }

  lemma InsertedHold(k: Id, bs: seq<Broadcast>, ids: set<Id>, w: Draws)
    requires k in ids && (forall j :: j in IdsOf(bs) <==> j in ids)
    requires forall i :: 0 <= i < |bs| ==> bs[i] == BroadcastOf(bs[i].id, w)
    ensures Holds(Insert(Fresh(k, |ids|, w), Others(bs, k)), ids, w)
  {
    var d := Fresh(k, |ids|, w);
    OthersAre(bs, k, w);
    assert Holds(d, {k}, w);
    InsertHolds(d, Others(bs, k), {k}, w);
    assert {k} + IdsOf(Others(bs, k)) == ids;
  }

  lemma PartTwoFrom(d: Dkg, others: seq<Broadcast>, k: Id, ids: set<Id>, w: Draws)
    requires d == Fresh(k, |ids|, w) && Holds(Insert(d, others), ids, w)
    ensures Part2Spec(d, others, WILLING) == (Gathered(k, ids, w), Ok(SealedBy(k, ids, w)))
  {
    InsertKeepsSecrets(d, others);
    GatheredSeals(k, ids, w);
    AllCounted(ids, w);
    assert Insert(d, others) == Gathered(k, ids, w).(r1Secret := Some(w.secret(k)), r2Secret := None);
  }

  /** With every broadcast at the relay, round two goes through with all of them. */
  lemma PartTwoGoes(k: Id, r1: map<Id, Broadcast>, ids: set<Id>, w: Draws)
    requires k in ids && r1.Keys == ids && forall j :: j in r1 ==> r1[j] == BroadcastOf(j, w)
    ensures Part2Spec(Fresh(k, |ids|, w), Handed(r1, k), WILLING) == (Gathered(k, ids, w), Ok(SealedBy(k, ids, w)))
  {
    HandedHolds(k, r1, ids, w);
    PartTwoFrom(Fresh(k, |ids|, w), Handed(r1, k), k, ids, w);
  }

  lemma AllCounted(ids: set<Id>, w: Draws)
    ensures |AllPackages(ids, w)| == |ids|
  {
    assert AllPackages(ids, w).Keys == ids;
  }

  lemma GatheredSeals(k: Id, ids: set<Id>, w: Draws)
    ensures KnowsPeers(Gathered(k, ids, w)) && SealedFor(Gathered(k, ids, w)) == SealedBy(k, ids, w)
  {
  }

  // ------------------------------------------------------------ gathering round two

  lemma AddressedAre(k: Id, r2: map<Id, map<Id, Ciphertext>>, ids: set<Id>, w: Draws)
    requires k in ids && r2.Keys == ids && forall j :: j in r2 ==> r2[j] == SealedBy(j, ids, w)
    ensures Addressed(r2, k) == SealedTo(k, ids, w)
  {
  }

  /** Each sealed package opens to what its sender put in. */
  lemma PartThreeGoes(k: Id, ids: set<Id>, w: Draws)
    requires k in ids
    ensures Part3Spec(Gathered(k, ids, w), SealedTo(k, ids, w), WILLING)
         == (Gathered(k, ids, w).(r2Secret := None), Ok(KeysOf(k, ids, w)))
  {
    var d := Gathered(k, ids, w).(r2Secret := None);
    SealedToOpens(k, ids, w, d);
    assert ContributionsTo(k, ids, w).Keys == d.r1All.Keys - {d.id};
    Part3Goes(Gathered(k, ids, w), SealedTo(k, ids, w), ContributionsTo(k, ids, w));
  }

  lemma SealedToOpens(k: Id, ids: set<Id>, w: Draws, d: Dkg)
    requires k in ids && d == Gathered(k, ids, w).(r2Secret := None)
    ensures var sealed := SealedTo(k, ids, w);
            Opened(d, Ascending(sealed.Keys), sealed) == Ok(ContributionsTo(k, ids, w))
  {
    EachOpens(k, ids, w, d, Ascending(SealedTo(k, ids, w).Keys));
  }

  lemma EachOpens(k: Id, ids: set<Id>, w: Draws, d: Dkg, senders: seq<Id>)
    requires k in ids && d == Gathered(k, ids, w).(r2Secret := None)
    requires forall j :: j in senders <==> j in SealedTo(k, ids, w)
    ensures Opened(d, senders, SealedTo(k, ids, w)) == Ok(ContributionsTo(k, ids, w))
  {
    var sealed, plain := SealedTo(k, ids, w), ContributionsTo(k, ids, w);
    forall j | j in senders ensures OpenFrom(d, j, sealed[j]) == Ok(plain[j]) {
      OneOpens(j, k, ids, w, d);
    }
    AllOpen(d, senders, sealed, plain);
    CollectedAll(senders, plain);
    SameMap(Collected(senders, plain), plain);
  }

  lemma OneOpens(j: Id, k: Id, ids: set<Id>, w: Draws, d: Dkg)
    requires k in ids && d == Gathered(k, ids, w).(r2Secret := None) && j in SealedTo(k, ids, w)
    ensures OpenFrom(d, j, SealedTo(k, ids, w)[j]) == Ok(ContributionsTo(k, ids, w)[j])
  {
  }

  lemma SameMap(a: map<Id, Contribution>, b: map<Id, Contribution>)
    requires (forall k :: k in a <==> k in b) && forall k :: k in a ==> a[k] == b[k]
    ensures a == b
  {
  }

  lemma Part3Goes(d: Dkg, sealed: map<Id, Ciphertext>, got: map<Id, Contribution>)
    requires d.r2Secret.Some? && Accepts(d.(r2Secret := None), got)
    requires Opened(d.(r2Secret := None), Ascending(sealed.Keys), sealed) == Ok(got)
    ensures Part3Spec(d, sealed, WILLING) == (d.(r2Secret := None), Ok(Keys(d.id, d.r1All, got)))
  {
  }

  // ------------------------------------------------------------ every turn keeps it

  lemma StartIsSound(ids: set<Id>, w: Draws)
    ensures Sound(Start(ids, w), ids, w)
  {
  }

  lemma RelayFull<V>(r: map<Id, V>, ids: set<Id>)
    requires r.Keys <= ids && |r| >= |ids|
    ensures r.Keys == ids
  {
    assert |r| == |r.Keys|;
    FullSubset(r.Keys, ids);
  }

  lemma AfterR1Is(bs: seq<Broadcast>, me: Id, ids: set<Id>, w: Draws)
    requires Part2Spec(Fresh(me, |ids|, w), Others(bs, me), WILLING) == (Gathered(me, ids, w), Ok(SealedBy(me, ids, w)))
    ensures AfterR1(NodeAt(me, 1, ids, w), bs, me) == NodeAt(me, 2, ids, w)
  {
  }

  lemma PostedTurnIs(relay: RelayState, node: Node, bs: seq<Broadcast>, me: Id, w: Draws)
    requires node.phase.Posted? && HandleSpec(relay, GetR1).1 == AllR1(bs)
    ensures Turn(relay, node, me, w) == (relay, AfterR1(node, bs, me))
  {
  }

  lemma WaitingTurnIs(relay: RelayState, node: Node, received: map<Id, Ciphertext>, me: Id, w: Draws)
    requires node.phase.Waiting? && HandleSpec(relay, GetR2(me)).1 == ForMe(received)
    ensures Turn(relay, node, me, w) == (relay, AfterR2(node, received))
  {
  }

  lemma AllThere(relay: RelayState) returns (bs: seq<Broadcast>)
    requires |relay.r1| >= relay.expected
    ensures bs == Values(Ascending(relay.r1.Keys), relay.r1) && HandleSpec(relay, GetR1).1 == AllR1(bs)
  {
    bs := Values(Ascending(relay.r1.Keys), relay.r1);
  }

  /** Fetching round one, with everything there. */
  lemma PostedTurn(relay: RelayState, me: Id, ids: set<Id>, w: Draws)
    requires me in ids && relay.expected == |ids| == |relay.r1|
    requires Part2Spec(Fresh(me, |ids|, w), Handed(relay.r1, me), WILLING)
          == (Gathered(me, ids, w), Ok(SealedBy(me, ids, w)))
    ensures Turn(relay, NodeAt(me, 1, ids, w), me, w) == (relay, NodeAt(me, 2, ids, w))
  {
    var bs := AllThere(relay);
    AfterR1Is(bs, me, ids, w);
    PostedTurnIs(relay, NodeAt(me, 1, ids, w), bs, me, w);
  }

  lemma AfterR2Is(me: Id, ids: set<Id>, w: Draws)
    requires me in ids
    ensures AfterR2(NodeAt(me, 3, ids, w), SealedTo(me, ids, w)) == NodeAt(me, 4, ids, w)
  {
    PartThreeGoes(me, ids, w);
  }

  /** Fetching round two, with everything there. */
  lemma WaitingTurn(relay: RelayState, me: Id, ids: set<Id>, w: Draws)
    requires me in ids && relay.expected == |ids| == |relay.r2| && Addressed(relay.r2, me) == SealedTo(me, ids, w)
    ensures Turn(relay, NodeAt(me, 3, ids, w), me, w) == (relay, NodeAt(me, 4, ids, w))
  {
    WaitingTurnIs(relay, NodeAt(me, 3, ids, w), SealedTo(me, ids, w), me, w);
    AfterR2Is(me, ids, w);
  }

  /** The relay after a participant has come to a level. */
  function RelayAt(relay: RelayState, me: Id, level: nat, ids: set<Id>, w: Draws): RelayState {
    relay.(r1 := if level >= 1 then relay.r1[me := BroadcastOf(me, w)] else relay.r1,
           r2 := if level >= 3 then relay.r2[me := SealedBy(me, ids, w)] else relay.r2)
  }

  /** The level a turn takes a participant to. */
  function NextLevel(level: nat, relay: RelayState, n: nat): nat {
    if level == 0 then 1
    else if level == 1 then (if |relay.r1| >= n then 2 else 1)
    else if level == 2 then 3
    else if level == 3 then (if |relay.r2| >= n then 4 else 3)
    else level
  }

  /** The relay already holds what this participant has posted. */
  ghost predicate Keeps(relay: RelayState, me: Id, level: nat, ids: set<Id>, w: Draws) {
    RelayAt(relay, me, level, ids, w) == relay
  }

  /** What the relay holds, it holds as posted. */
  ghost predicate Posts(relay: RelayState, ids: set<Id>, w: Draws) {
    && relay.expected == |ids|
    && relay.r1.Keys <= ids && (forall j :: j in relay.r1 ==> relay.r1[j] == BroadcastOf(j, w))
    && relay.r2.Keys <= ids && (forall j :: j in relay.r2 ==> relay.r2[j] == SealedBy(j, ids, w))
  }

  lemma FullR1(relay: RelayState, me: Id, ids: set<Id>, w: Draws)
    requires me in ids && Posts(relay, ids, w) && |relay.r1| >= |ids|
    ensures Turn(relay, NodeAt(me, 1, ids, w), me, w) == (relay, NodeAt(me, 2, ids, w))
  {
    RelayFull(relay.r1, ids);
    PartTwoGoes(me, relay.r1, ids, w);
    PostedTurn(relay, me, ids, w);
  }

  lemma FullR2(relay: RelayState, me: Id, ids: set<Id>, w: Draws)
    requires me in ids && Posts(relay, ids, w) && |relay.r2| >= |ids|
    ensures Turn(relay, NodeAt(me, 3, ids, w), me, w) == (relay, NodeAt(me, 4, ids, w))
  {
    RelayFull(relay.r2, ids);
    AddressedAre(me, relay.r2, ids, w);
    WaitingTurn(relay, me, ids, w);
  }

  lemma OtherTurn(relay: RelayState, level: nat, me: Id, ids: set<Id>, w: Draws)
    requires level <= 4 && Keeps(relay, me, level, ids, w) && relay.expected == |ids|
    requires level == 1 ==> |relay.r1| < |ids|
    requires level == 3 ==> |relay.r2| < |ids|
    ensures var next := NextLevel(level, relay, |ids|);
            Turn(relay, NodeAt(me, level, ids, w), me, w)
              == (RelayAt(relay, me, next, ids, w), NodeAt(me, next, ids, w))
  {
  }

  lemma EveryTurn(relay: RelayState, level: nat, me: Id, ids: set<Id>, w: Draws)
    requires me in ids && level <= 4 && Posts(relay, ids, w) && Keeps(relay, me, level, ids, w)
    ensures var next := NextLevel(level, relay, |ids|);
            Turn(relay, NodeAt(me, level, ids, w), me, w)
              == (RelayAt(relay, me, next, ids, w), NodeAt(me, next, ids, w))
  {
    if level == 1 && |relay.r1| >= |ids| {
      FullR1(relay, me, ids, w);
    } else if level == 3 && |relay.r2| >= |ids| {
      FullR2(relay, me, ids, w);
    } else {
      OtherTurn(relay, level, me, ids, w);
    }
  }

  // ------------------------------------------------------------ every step keeps it

  lemma SoundPosts(s: System, ids: set<Id>, w: Draws)
    requires Sound(s, ids, w)
    ensures Posts(s.relay, ids, w)
  {
  }

  lemma SoundKeeps(s: System, me: Id, ids: set<Id>, w: Draws)
    requires Sound(s, ids, w) && me in ids
    ensures Keeps(s.relay, me, Level(s.nodes[me].phase), ids, w)
  {
    var r1, r2 := s.relay.r1, s.relay.r2;
    if me in r1 {
      assert r1[me := BroadcastOf(me, w)] == r1;
    }
    if me in r2 {
      assert r2[me := SealedBy(me, ids, w)] == r2;
    }
  }

  lemma NodesKeep(nodes: map<Id, Node>, me: Id, n: Node, ids: set<Id>, w: Draws)
    requires nodes.Keys == ids && me in ids && NodeOk(me, n, ids, w)
    requires forall k :: k in ids ==> NodeOk(k, nodes[k], ids, w)
    ensures NodesOk(nodes[me := n], ids, w)
  {
    var after := nodes[me := n];
    assert after.Keys == ids;
    forall k | k in ids ensures NodeOk(k, after[k], ids, w) {
      if k == me {
        assert after[k] == n;
      } else {
        assert after[k] == nodes[k];
      }
    }
  }

  lemma RelayKeeps(relay: RelayState, nodes: map<Id, Node>, me: Id, n: Node, ids: set<Id>, w: Draws)
    requires RelayOk(relay, nodes, ids, w) && me in nodes && Level(n.phase) >= Level(nodes[me].phase)
    ensures RelayOk(RelayAt(relay, me, Level(n.phase), ids, w), nodes[me := n], ids, w)
  {
  }

  lemma LevelAt(k: Id, level: nat, ids: set<Id>, w: Draws)
    requires level <= 4
    ensures Level(NodeAt(k, level, ids, w).phase) == level
  {
  }

  lemma LevelIsBounded(p: Phase, relay: RelayState, n: nat)
    ensures Level(p) <= NextLevel(Level(p), relay, n) <= 4
  {
  }

  lemma StepTo(s: System, me: Id, ids: set<Id>, w: Draws) returns (n: Node)
    requires Sound(s, ids, w) && me in ids
    ensures Level(n.phase) == NextLevel(Level(s.nodes[me].phase), s.relay, |ids|) && NodeOk(me, n, ids, w)
    ensures Step(s, me, w) == System(RelayAt(s.relay, me, Level(n.phase), ids, w), s.nodes[me := n])
  {
    SoundPosts(s, ids, w);
    SoundKeeps(s, me, ids, w);
    var level := Level(s.nodes[me].phase);
    assert NodeOk(me, s.nodes[me], ids, w);
    LevelIsBounded(s.nodes[me].phase, s.relay, |ids|);
    EveryTurn(s.relay, level, me, ids, w);
    LevelAt(me, NextLevel(level, s.relay, |ids|), ids, w);
    n := NodeAt(me, NextLevel(level, s.relay, |ids|), ids, w);
  }

  function LevelOf(s: System, k: Id): nat {
    if k in s.nodes then Level(s.nodes[k].phase) else 0
  }

  lemma StepKeeps(s: System, me: Id, ids: set<Id>, w: Draws)
    requires Sound(s, ids, w)
    ensures Sound(Step(s, me, w), ids, w)
    ensures forall k :: LevelOf(Step(s, me, w), k) >= LevelOf(s, k)
    ensures me in ids ==> LevelOf(Step(s, me, w), me) == NextLevel(LevelOf(s, me), s.relay, |ids|)
  {
    if me in ids {
      var n := StepTo(s, me, ids, w);
      LevelIsBounded(s.nodes[me].phase, s.relay, |ids|);
      SoundWith(s, me, n, ids, w);
      LevelsWith(s, RelayAt(s.relay, me, Level(n.phase), ids, w), me, n);
    }
  }

  lemma SoundWith(s: System, me: Id, n: Node, ids: set<Id>, w: Draws)
    requires Sound(s, ids, w) && me in ids && NodeOk(me, n, ids, w) && Level(n.phase) >= Level(s.nodes[me].phase)
    ensures Sound(System(RelayAt(s.relay, me, Level(n.phase), ids, w), s.nodes[me := n]), ids, w)
  {
    NodesKeep(s.nodes, me, n, ids, w);
    RelayKeeps(s.relay, s.nodes, me, n, ids, w);
  }

  lemma LevelsWith(s: System, relay: RelayState, me: Id, n: Node)
    requires me in s.nodes && Level(n.phase) >= Level(s.nodes[me].phase)
    ensures var s' := System(relay, s.nodes[me := n]);
            LevelOf(s', me) == Level(n.phase) && forall k :: LevelOf(s', k) >= LevelOf(s, k)
  {
  }

  // ------------------------------------------------------------ in any order

  function Steps(w: Draws): I.Turns<System> {
    (s: System, me: nat) => Step(s, me, w)
  }

  ghost function SoundFor(ids: set<Id>, w: Draws): I.Kept<System> {
    (s: System) => Sound(s, ids, w)
  }

  function Reached(): I.Levels<System> {
    (s: System, k: nat) => LevelOf(s, k)
  }

  lemma OneTurnKeeps(ids: set<Id>, w: Draws, s: System, me: Id, k: Id)
    requires SoundFor(ids, w)(s)
    ensures SoundFor(ids, w)(Steps(w)(s, me)) && Reached()(Steps(w)(s, me), k) >= Reached()(s, k)
  {
    StepKeeps(s, me, ids, w);
  }

  lemma TurnsKeep(ids: set<Id>, w: Draws)
    ensures I.Keeps(Steps(w), SoundFor(ids, w), Reached())
  {
    var turn, inv, level := Steps(w), SoundFor(ids, w), Reached();
    forall s: System, me: nat | inv(s) ensures inv(turn(s, me)) {
      OneTurnKeeps(ids, w, s, me, 0);
    }
    forall s: System, me: nat, k: nat | inv(s) ensures level(turn(s, me), k) >= level(s, k) {
      OneTurnKeeps(ids, w, s, me, k);
    }
  }

  /** When everybody has posted, the relay makes nobody wait. */
  lemma TurnsMove(ids: set<Id>, w: Draws)
    ensures I.Moves(Steps(w), SoundFor(ids, w), Reached(), ids, 4)
  {
    var turn, inv, level := Steps(w), SoundFor(ids, w), Reached();
    forall s: System, me: nat, n: nat | inv(s) && me in ids && n < 4 && I.AllReached(s, ids, level, n)
      ensures level(turn(s, me), me) >= n + 1
    {
      OneTurnMoves(ids, w, s, me, n);
    }
  }

  lemma OneTurnMoves(ids: set<Id>, w: Draws, s: System, me: Id, n: nat)
    requires SoundFor(ids, w)(s) && me in ids && n < 4 && I.AllReached(s, ids, Reached(), n)
    ensures Reached()(Steps(w)(s, me), me) >= n + 1
  {
    EveryoneThere(s, ids, w, n);
    assert Reached()(s, me) >= n;
    ThenMoves(LevelOf(s, me), s.relay, |ids|, n);
    StepKeeps(s, me, ids, w);
  }

  lemma ThenMoves(level: nat, relay: RelayState, count: nat, n: nat)
    requires n <= level && n < 4 && (n >= 1 ==> |relay.r1| == count) && (n >= 3 ==> |relay.r2| == count)
    ensures NextLevel(level, relay, count) >= n + 1
  {
  }

  lemma EveryoneThere(s: System, ids: set<Id>, w: Draws, n: nat)
    requires Sound(s, ids, w) && I.AllReached(s, ids, Reached(), n)
    ensures n >= 1 ==> |s.relay.r1| == |ids|
    ensures n >= 3 ==> |s.relay.r2| == |ids|
  {
    forall k | k in ids ensures LevelOf(s, k) >= n {
      assert Reached()(s, k) >= n;
    }
    if n >= 1 {
      assert s.relay.r1.Keys == ids;
      assert |s.relay.r1| == |s.relay.r1.Keys|;
    }
    if n >= 3 {
      assert s.relay.r2.Keys == ids;
      assert |s.relay.r2| == |s.relay.r2.Keys|;
    }
  }

  /** The ceremony after some turns. */
  function After(ids: set<Id>, w: Draws, schedule: seq<Id>): System {
    I.Run(Steps(w), Start(ids, w), schedule)
  }

  lemma AlwaysSound(ids: set<Id>, w: Draws, schedule: seq<Id>)
    ensures Sound(After(ids, w, schedule), ids, w)
  {
    StartIsSound(ids, w);
    TurnsKeep(ids, w);
    I.RunKeeps(Steps(w), SoundFor(ids, w), Reached(), Start(ids, w), schedule, 0);
    assert SoundFor(ids, w)(After(ids, w, schedule));
  }

  /** In every interleaving: nobody ever fails; whoever has left round one holds
      all the broadcasts, the same for everyone, and has run `part2` once; and
      whoever has left round two has run `part3` once, on exactly one ciphertext
      from each other participant, the one that participant sealed to it, and
      has opened each to what its sender put in. */
  lemma EveryInterleavingIsSafe(ids: set<Id>, w: Draws, schedule: seq<Id>, k: Id)
    requires k in ids
    ensures k in After(ids, w, schedule).nodes && SafeNode(k, After(ids, w, schedule).nodes[k], ids, w)
  {
    AlwaysSound(ids, w, schedule);
    NodeIsSafe(k, After(ids, w, schedule).nodes[k], ids, w);
  }

  ghost predicate SafeNode(k: Id, n: Node, ids: set<Id>, w: Draws)
    requires k in ids
  {
    && n.phase != Failed
    && (Level(n.phase) >= 2 ==>
          n.d.r1All == AllPackages(ids, w) && n.d.sealPubs == AllSeals(ids, w) && n.d.r1Secret.None?)
    && n.part2s == (if Level(n.phase) >= 2 then 1 else 0)
    && n.part3s == (if Level(n.phase) == 4 then 1 else 0)
    && (n.phase.Finished? ==>
          && n.phase.received.Keys == ids - {k}
          && (forall j :: j in n.phase.received ==> n.phase.received[j] == SealedBy(j, ids, w)[k])
          && n.phase.keys.id == k && n.phase.keys.packages == AllPackages(ids, w)
          && n.phase.keys.contributions.Keys == ids - {k}
          && (forall j :: j in n.phase.keys.contributions ==>
                n.phase.keys.contributions[j] == Contribution(j, k, AllPackages(ids, w))))
  }

  lemma NodeIsSafe(k: Id, n: Node, ids: set<Id>, w: Draws)
    requires k in ids && NodeOk(k, n, ids, w)
    ensures SafeNode(k, n, ids, w)
  {
    if n.phase.Finished? {
      FinishedIs(k, n, ids, w);
    }
  }

  lemma FinishedIs(k: Id, n: Node, ids: set<Id>, w: Draws)
    requires k in ids && NodeOk(k, n, ids, w) && n.phase.Finished?
    ensures n.phase.keys == KeysOf(k, ids, w) && n.phase.received == SealedTo(k, ids, w)
    ensures n.phase.received.Keys == ids - {k} == n.phase.keys.contributions.Keys
  {
  }

  /** No reachable unfinished state is stuck: some participant's next turn takes it further. */
  lemma NeverStuck(ids: set<Id>, w: Draws, schedule: seq<Id>, k: Id) returns (next: Id)
    requires k in ids && k in After(ids, w, schedule).nodes && !After(ids, w, schedule).nodes[k].phase.Finished?
    ensures next in ids
    ensures LevelOf(Step(After(ids, w, schedule), next, w), next) > LevelOf(After(ids, w, schedule), next)
  {
    var s := After(ids, w, schedule);
    AlwaysSound(ids, w, schedule);
    TurnsMove(ids, w);
    assert SoundFor(ids, w)(s) && Reached()(s, k) < 4;
    next := I.SomeoneMoves(Steps(w), SoundFor(ids, w), Reached(), ids, 4, s, k);
    assert Steps(w)(s, next) == Step(s, next, w);
  }

  /** From any reachable state, in whatever order the turns come, once everybody
      has had a turn four times over the ceremony is finished for everybody. */
  lemma FourSweepsFinish(ids: set<Id>, w: Draws, schedule: seq<Id>, sweeps: seq<seq<Id>>, k: Id)
    requires k in ids && |sweeps| == 4 && forall i, j :: 0 <= i < 4 && j in ids ==> j in sweeps[i]
    ensures var end := After(ids, w, schedule + I.Flat(sweeps));
            k in end.nodes && end.nodes[k].phase.Finished?
  {
    var s := After(ids, w, schedule);
    AlwaysSound(ids, w, schedule);
    TurnsKeep(ids, w);
    TurnsMove(ids, w);
    assert SoundFor(ids, w)(s);
    I.SweepsFinish(Steps(w), SoundFor(ids, w), Reached(), ids, 4, s, sweeps);
    TopIsFinished(I.RunSweeps(Steps(w), s, sweeps), ids, k);
    I.SweepsAreTurns(Steps(w), s, sweeps);
    I.RunJoins(Steps(w), Start(ids, w), schedule, I.Flat(sweeps));
  }

  lemma TopIsFinished(s: System, ids: set<Id>, k: Id)
    requires I.AllReached(s, ids, Reached(), 4) && k in ids
    ensures k in s.nodes && s.nodes[k].phase.Finished?
  {
    assert Reached()(s, k) >= 4;
  }
}
