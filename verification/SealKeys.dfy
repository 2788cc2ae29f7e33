/** How often the keys that seal round two are used (src/dkg_net.rs, `cipher` and
    `seal`). The nonce never changes, so a package is safe from another exactly
    when no key seals both. */
module SealKeys {
  import opened Prelude
  import opened DkgNet
  import opened CeremonyRun
  import C = Ceremony
  import I = Interleaving

  /** The participants' sealing keys are all different. */
  ghost predicate FreshKeys(ids: set<Id>, w: Draws) {
    forall i, j :: i in ids && j in ids && i != j ==> w.seal(i) != w.seal(j)
  }

  /** Sealed under one key with one nonce. */
  predicate SameSeal(a: Ciphertext, b: Ciphertext) {
    a.keys == b.keys && a.nonce == b.nonce
  }

  /** No key and nonce have sealed two of these packages. */
  ghost predicate UsedOnce(r2: map<Id, map<Id, Ciphertext>>) {
    forall i, j, k, l :: i in r2 && j in r2[i] && k in r2 && l in r2[k] && SameSeal(r2[i][j], r2[k][l]) ==>
      i == k && j == l
  }

  /** What the relay holds of round two, in any reachable state. */
  function Posted(ids: set<Id>, w: Draws, schedule: seq<Id>): map<Id, map<Id, Ciphertext>> {
    After(ids, w, schedule).relay.r2
  }

  lemma PostedIs(ids: set<Id>, w: Draws, schedule: seq<Id>)
    ensures var r2 := Posted(ids, w, schedule); r2.Keys <= ids && forall i :: i in r2 ==> r2[i] == SealedBy(i, ids, w)
  {
    AlwaysSound(ids, w, schedule);
  }

  lemma SealedIs(i: Id, j: Id, ids: set<Id>, w: Draws)
    requires i in ids && j in ids && i != j
    ensures j in SealedBy(i, ids, w)
    ensures SealedBy(i, ids, w)[j]
         == Ciphertext({w.seal(i), w.seal(j)}, SEAL_NONCE, Contribution(i, j, AllPackages(ids, w)))
  {
  }

  lemma SamePair(i: Id, j: Id, k: Id, l: Id, ids: set<Id>, w: Draws)
    requires FreshKeys(ids, w) && i in ids && j in ids && k in ids && l in ids
    ensures {w.seal(i), w.seal(j)} == {w.seal(k), w.seal(l)} <==> {i, j} == {k, l}
  {
    if {w.seal(i), w.seal(j)} == {w.seal(k), w.seal(l)} {
      assert w.seal(i) in {w.seal(k), w.seal(l)} && w.seal(j) in {w.seal(k), w.seal(l)};
      assert w.seal(k) in {w.seal(i), w.seal(j)} && w.seal(l) in {w.seal(i), w.seal(j)};
      assert (i == k || i == l) && (j == k || j == l) && (k == i || k == j) && (l == i || l == j);
    }
  }

  /** In any reachable state two packages at the relay are sealed under one key and
      nonce exactly when they pass between the same two participants, in whichever
      direction. */
  lemma SameSealExactlyWhenSamePair(ids: set<Id>, w: Draws, schedule: seq<Id>, i: Id, j: Id, k: Id, l: Id)
    requires FreshKeys(ids, w)
    requires var r2 := Posted(ids, w, schedule); i in r2 && j in r2[i] && k in r2 && l in r2[k]
    ensures var r2 := Posted(ids, w, schedule); SameSeal(r2[i][j], r2[k][l]) <==> {i, j} == {k, l}
  {
    PostedIs(ids, w, schedule);
    SealedIs(i, j, ids, w);
    SealedIs(k, l, ids, w);
    SamePair(i, j, k, l, ids, w);
  }

  /** Both directions between two participants are sealed alike, whatever was
      drawn, and what they carry differs. */
  lemma BothWaysAlike(ids: set<Id>, w: Draws, schedule: seq<Id>, i: Id, j: Id)
    requires var r2 := Posted(ids, w, schedule); i in r2 && j in r2 && i != j
    ensures var r2 := Posted(ids, w, schedule);
            && j in r2[i] && i in r2[j] && SameSeal(r2[i][j], r2[j][i]) && r2[i][j].plain != r2[j][i].plain
  {
    PostedIs(ids, w, schedule);
    SealedIs(i, j, ids, w);
    SealedIs(j, i, ids, w);
  }

  /** So each key is used once exactly as long as only one participant has posted
      its packages. */
  lemma UsedOnceExactlyWhenOneHasPosted(ids: set<Id>, w: Draws, schedule: seq<Id>)
    requires FreshKeys(ids, w)
    ensures UsedOnce(Posted(ids, w, schedule)) <==> |Posted(ids, w, schedule)| <= 1
  {
    var r2 := Posted(ids, w, schedule);
    PostedIs(ids, w, schedule);
    if i, j :| i in r2 && j in r2 && i != j {
      BothWaysAlike(ids, w, schedule, i, j);
      C.SubsetSize({i, j}, r2.Keys);
      assert |r2| == |r2.Keys|;
    } else {
      AtMostOne(r2.Keys);
      assert |r2| == |r2.Keys|;
      forall i, j, k, l | i in r2 && j in r2[i] && k in r2 && l in r2[k] && SameSeal(r2[i][j], r2[k][l])
        ensures i == k && j == l
      {
        SameSealExactlyWhenSamePair(ids, w, schedule, i, j, k, l);
        assert j in {k, l} && j != i;
      }
    }
  }

  lemma AtMostOne(s: set<Id>)
    requires forall i, j :: i in s && j in s ==> i == j
    ensures |s| <= 1
  {
    if x :| x in s {
      assert s == {x};
    }
  }

  lemma FinishedHasPosted(s: System, ids: set<Id>, w: Draws, k: Id)
    requires Sound(s, ids, w) && k in s.nodes && Level(s.nodes[k].phase) >= 3
    ensures k in s.relay.r2
  {
  }

  lemma FinishedIsLast(s: System, k: Id)
    requires k in s.nodes && s.nodes[k].phase.Finished?
    ensures Level(s.nodes[k].phase) >= 3
  {
  }

  lemma FinishedHavePosted(ids: set<Id>, w: Draws, schedule: seq<Id>, k: Id)
    requires var nodes := After(ids, w, schedule).nodes; k in nodes && nodes[k].phase.Finished?
    ensures k in Posted(ids, w, schedule)
  {
    var s := After(ids, w, schedule);
    AlwaysSound(ids, w, schedule);
    FinishedIsLast(s, k);
    FinishedHasPosted(s, ids, w, k);
  }

  /** In a ceremony every participant has finished, exactly when there was nobody
      to seal to: never, for a number of participants the ceremony accepts. */
  lemma FinishedUsedOnceExactlyWhenAlone(ids: set<Id>, w: Draws, schedule: seq<Id>)
    requires FreshKeys(ids, w)
    requires forall k :: k in ids ==> var nodes := After(ids, w, schedule).nodes; k in nodes && nodes[k].phase.Finished?
    ensures UsedOnce(Posted(ids, w, schedule)) <==> |ids| <= 1
    ensures forall t: C.u16 :: |ids| < 0x1_0000 && C.New(t, |ids|).Ok? ==> !UsedOnce(Posted(ids, w, schedule))
  {
    var r2 := Posted(ids, w, schedule);
    PostedIs(ids, w, schedule);
    forall k | k in ids ensures k in r2 {
      FinishedHavePosted(ids, w, schedule, k);
    }
    assert r2.Keys == ids && |r2| == |r2.Keys|;
    UsedOnceExactlyWhenOneHasPosted(ids, w, schedule);
  }

  /** Wherever there are two participants, one key and nonce come to seal two
      different packages: after everybody's turn four times over. */
  lemma AKeyUsedTwice(ids: set<Id>, w: Draws, everyone: seq<Id>, i: Id, j: Id) returns (schedule: seq<Id>)
    requires i in ids && j in ids && i != j && forall k :: k in ids ==> k in everyone
    ensures var r2 := Posted(ids, w, schedule);
            && i in r2 && j in r2 && j in r2[i] && i in r2[j]
            && SameSeal(r2[i][j], r2[j][i]) && r2[i][j].plain != r2[j][i].plain
  {
    var sweeps: seq<seq<Id>> := [everyone, everyone, everyone, everyone];
    schedule := [] + I.Flat(sweeps);
    FourSweepsFinish(ids, w, [], sweeps, i);
    FourSweepsFinish(ids, w, [], sweeps, j);
    FinishedHavePosted(ids, w, schedule, i);
    FinishedHavePosted(ids, w, schedule, j);
    BothWaysAlike(ids, w, schedule, i, j);
  }

  /** Two participants, whatever they draw. */
  lemma TwoParticipants(w: Draws) returns (schedule: seq<Id>)
    ensures var r2 := Posted({1, 2}, w, schedule);
            && 1 in r2 && 2 in r2 && 2 in r2[1] && 1 in r2[2]
            && SameSeal(r2[1][2], r2[2][1]) && r2[1][2].plain != r2[2][1].plain
  {
    schedule := AKeyUsedTwice({1, 2}, w, [1, 2], 1, 2);
  }
}
