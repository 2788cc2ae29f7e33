/** The ceremony when participants give up (src/dkg_net.rs, `call` and `poll`): a
    call that fails ends its participant's run, and so does the six hundredth
    answer that says to wait. */
module Patience {
  import opened Prelude
  import opened DkgNet
  import opened CeremonyRun
  import I = Interleaving

  /** How often one `poll` asks. */
  const POLLS: nat := 600

  /** A call answered, or a connection lost. A call answered by the relay whose
      answer never arrives is the one and then the other. */
  datatype Event = Call(me: Id) | Loses(me: Id)

  /** The ceremony, how often each was last told to wait in a row, and who has given up. */
  datatype Patient = Patient(sys: System, waits: map<Id, nat>, gone: set<Id>)

  predicate ToldToWait(relay: RelayState, node: Node, me: Id) {
    || (node.phase.Posted? && !HandleSpec(relay, GetR1).1.AllR1?)
    || (node.phase.Waiting? && !HandleSpec(relay, GetR2(me)).1.ForMe?)
  }

  function Waited(p: Patient, me: Id): nat {
    if me in p.waits then p.waits[me] else 0
  }

  function Happens(p: Patient, e: Event, w: Draws): Patient {
    if e.me !in p.sys.nodes || e.me in p.gone then p
    else if e.Loses? then p.(gone := p.gone + {e.me})
    else
      var next := Step(p.sys, e.me, w);
      if !ToldToWait(p.sys.relay, p.sys.nodes[e.me], e.me) then Patient(next, p.waits[e.me := 0], p.gone)
      else
        var n := Waited(p, e.me) + 1;
        Patient(next, p.waits[e.me := n], if n >= POLLS then p.gone + {e.me} else p.gone)
  }

  function Events(p: Patient, es: seq<Event>, w: Draws): Patient {
    if es == [] then p else Happens(Events(p, es[..|es| - 1], w), es[|es| - 1], w)
  }

  function Since(ids: set<Id>, w: Draws, es: seq<Event>): Patient {
    Events(Patient(Start(ids, w), map[], {}), es, w)
  }

  // ------------------------------------------------------------ safety

  /** One may have come to level a while another has only come to level b. */
  predicate Apart(a: nat, b: nat) {
    (a >= 2 ==> b >= 1) && (a >= 4 ==> b >= 3)
  }

  /** Nobody is past a round not everybody has posted for. */
  ghost predicate InRounds(s: System, ids: set<Id>) {
    forall k, j :: j in ids ==> Apart(LevelOf(s, k), LevelOf(s, j))
  }

  lemma FullIsEveryone(s: System, ids: set<Id>, w: Draws)
    requires Sound(s, ids, w)
    ensures |s.relay.r1| >= |ids| ==> forall j :: j in ids ==> LevelOf(s, j) >= 1
    ensures |s.relay.r2| >= |ids| ==> forall j :: j in ids ==> LevelOf(s, j) >= 3
  {
    SoundPosts(s, ids, w);
    if |s.relay.r1| >= |ids| {
      RelayFull(s.relay.r1, ids);
    }
    if |s.relay.r2| >= |ids| {
      RelayFull(s.relay.r2, ids);
    }
  }

  lemma OthersStand(s: System, me: Id, k: Id, w: Draws)
    requires k != me || me !in s.nodes
    ensures LevelOf(Step(s, me, w), k) == LevelOf(s, k)
  {
  }

  lemma NextApart(level: nat, relay: RelayState, count: nat, b: nat, c: nat)
    requires Apart(level, b) && b <= c
    requires (|relay.r1| >= count ==> b >= 1) && (|relay.r2| >= count ==> b >= 3)
    ensures Apart(NextLevel(level, relay, count), c)
  {
  }

  lemma StepOne(s: System, me: Id, j: Id, ids: set<Id>, w: Draws)
    requires Sound(s, ids, w)
    ensures LevelOf(Step(s, me, w), j) >= LevelOf(s, j)
    ensures me in ids ==> LevelOf(Step(s, me, w), me) == NextLevel(LevelOf(s, me), s.relay, |ids|)
  {
    StepKeeps(s, me, ids, w);
  }

  lemma PairInRounds(s: System, me: Id, k: Id, j: Id, ids: set<Id>, w: Draws)
    requires Sound(s, ids, w) && j in ids && Apart(LevelOf(s, k), LevelOf(s, j))
    ensures Apart(LevelOf(Step(s, me, w), k), LevelOf(Step(s, me, w), j))
  {
    StepOne(s, me, j, ids, w);
    if k == me && me in ids {
      FullIsEveryone(s, ids, w);
      NextApart(LevelOf(s, me), s.relay, |ids|, LevelOf(s, j), LevelOf(Step(s, me, w), j));
    } else {
      OthersStand(s, me, k, w);
    }
  }

  lemma StepInRounds(s: System, me: Id, ids: set<Id>, w: Draws)
    requires Sound(s, ids, w) && InRounds(s, ids)
    ensures InRounds(Step(s, me, w), ids)
  {
    var next := Step(s, me, w);
    forall k, j | j in ids ensures Apart(LevelOf(next, k), LevelOf(next, j)) {
      assert Apart(LevelOf(s, k), LevelOf(s, j));
      PairInRounds(s, me, k, j, ids, w);
    }
  }

  lemma HappensIs(p: Patient, e: Event, w: Draws)
    ensures var q := Happens(p, e, w);
            && (q.sys == p.sys || (q.sys == Step(p.sys, e.me, w) && e.me !in p.gone))
            && p.gone <= q.gone
  {
  }

  /** Whoever gives up, what was so without is so still. */
  lemma {:induction false} EventsKeep(p: Patient, es: seq<Event>, ids: set<Id>, w: Draws)
    requires Sound(p.sys, ids, w) && InRounds(p.sys, ids)
    ensures var q := Events(p, es, w);
            && Sound(q.sys, ids, w) && InRounds(q.sys, ids) && p.gone <= q.gone
            && (forall k :: LevelOf(q.sys, k) >= LevelOf(p.sys, k))
            && (forall k :: k in p.gone ==> LevelOf(q.sys, k) == LevelOf(p.sys, k))
  {
    if es != [] {
      var n := |es| - 1;
      var mid := Events(p, es[..n], w);
      EventsKeep(p, es[..n], ids, w);
      HappensIs(mid, es[n], w);
      StepKeeps(mid.sys, es[n].me, ids, w);
      StepInRounds(mid.sys, es[n].me, ids, w);
      forall k | k in p.gone ensures LevelOf(Events(p, es, w).sys, k) == LevelOf(mid.sys, k) {
        if es[n].me != k {
          OthersStand(mid.sys, es[n].me, k, w);
        }
      }
    }
  }

  lemma StartsInRounds(ids: set<Id>, w: Draws)
    ensures Sound(Start(ids, w), ids, w) && InRounds(Start(ids, w), ids)
  {
    StartIsSound(ids, w);
  }

  /** In every interleaving with any participants giving up anywhere, each is as
      safe as if nobody had, and nobody is past a round not everybody posted for. */
  lemma SafeWhoeverGivesUp(ids: set<Id>, w: Draws, es: seq<Event>, k: Id)
    requires k in ids
    ensures var s := Since(ids, w, es).sys;
            k in s.nodes && SafeNode(k, s.nodes[k], ids, w) && InRounds(s, ids)
  {
    StartsInRounds(ids, w);
    EventsKeep(Patient(Start(ids, w), map[], {}), es, ids, w);
    NodeIsSafe(k, Since(ids, w, es).sys.nodes[k], ids, w);
  }

  /** One that gives up before it has posted for round two keeps everybody from finishing, for good. */
  lemma OneGoneStopsAll(ids: set<Id>, w: Draws, es: seq<Event>, more: seq<Event>, g: Id, k: Id)
    requires g in ids && g in Since(ids, w, es).gone && LevelOf(Since(ids, w, es).sys, g) < 3
    ensures LevelOf(Events(Since(ids, w, es), more, w).sys, k) < 4
  {
    StartsInRounds(ids, w);
    EventsKeep(Patient(Start(ids, w), map[], {}), es, ids, w);
    EventsKeep(Since(ids, w, es), more, ids, w);
  }

  // ------------------------------------------------------------ who finishes

  function Calls(schedule: seq<Id>): (es: seq<Event>)
    ensures |es| == |schedule| && forall i :: 0 <= i < |es| ==> es[i] == Call(schedule[i])
  {
    seq(|schedule|, i requires 0 <= i < |schedule| => Call(schedule[i]))
  }

  /** The turns that are left when some have given up. */
  function StepsWithout(gone: set<Id>, w: Draws): I.Turns<System> {
    (s: System, me: nat) => if me in gone then s else Step(s, me, w)
  }

  /** As long as nobody more gives up, the rest take their turns as before. */
  lemma {:induction false} EventsAreTurns(p: Patient, schedule: seq<Id>, w: Draws)
    requires Events(p, Calls(schedule), w).gone == p.gone
    ensures Events(p, Calls(schedule), w).sys == I.Run(StepsWithout(p.gone, w), p.sys, schedule)
  {
    if schedule != [] {
      var n := |schedule| - 1;
      assert Calls(schedule)[..n] == Calls(schedule[..n]);
      var mid := Events(p, Calls(schedule[..n]), w);
      GoneGrows(p, Calls(schedule[..n]), w);
      HappensIs(mid, Call(schedule[n]), w);
      EventsAreTurns(p, schedule[..n], w);
    }
  }

  lemma {:induction false} GoneGrows(p: Patient, es: seq<Event>, w: Draws)
    ensures p.gone <= Events(p, es, w).gone
  {
    if es != [] {
      GoneGrows(p, es[..|es| - 1], w);
      HappensIs(Events(p, es[..|es| - 1], w), es[|es| - 1], w);
    }
  }

  ghost function SoundWithout(ids: set<Id>, gone: set<Id>, w: Draws): I.Kept<System> {
    (s: System) => Sound(s, ids, w) && forall g :: g in ids && g in gone ==> LevelOf(s, g) >= 3
  }

  lemma WithoutKeeps(ids: set<Id>, gone: set<Id>, w: Draws)
    ensures I.Keeps(StepsWithout(gone, w), SoundWithout(ids, gone, w), Reached())
  {
    var turn, inv, level := StepsWithout(gone, w), SoundWithout(ids, gone, w), Reached();
    forall s: System, me: nat | inv(s) ensures inv(turn(s, me)) {
      StepKeeps(s, me, ids, w);
    }
    forall s: System, me: nat, k: nat | inv(s) ensures level(turn(s, me), k) >= level(s, k) {
      StepKeeps(s, me, ids, w);
    }
  }

  lemma OneMovesWithout(ids: set<Id>, gone: set<Id>, w: Draws, s: System, me: Id, n: nat)
    requires SoundWithout(ids, gone, w)(s) && me in ids - gone && n < 4 && I.AllReached(s, ids - gone, Reached(), n)
    ensures Reached()(StepsWithout(gone, w)(s, me), me) >= n + 1
  {
    forall k | k in ids ensures Reached()(s, k) >= n {
      if k in gone {
        assert LevelOf(s, k) >= 3;
      } else {
        assert k in ids - gone;
      }
    }
    OneTurnMoves(ids, w, s, me, n);
  }

  lemma WithoutMoves(ids: set<Id>, gone: set<Id>, w: Draws)
    ensures I.Moves(StepsWithout(gone, w), SoundWithout(ids, gone, w), Reached(), ids - gone, 4)
  {
    var turn, inv, level := StepsWithout(gone, w), SoundWithout(ids, gone, w), Reached();
    forall s: System, me: nat, n: nat | inv(s) && me in ids - gone && n < 4 && I.AllReached(s, ids - gone, level, n)
      ensures level(turn(s, me), me) >= n + 1
    {
      OneMovesWithout(ids, gone, w, s, me, n);
    }
  }

  /** All that gave up had posted for round two. */
  ghost predicate GonePosted(p: Patient, ids: set<Id>) {
    forall g :: g in ids && g in p.gone ==> LevelOf(p.sys, g) >= 3
  }

  /** Four sweeps of those that are left, with nobody more giving up. */
  ghost predicate Swept(p: Patient, ids: set<Id>, sweeps: seq<seq<Id>>, w: Draws) {
    && |sweeps| == 4
    && (forall i, j :: 0 <= i < 4 && j in ids - p.gone ==> j in sweeps[i])
    && Events(p, Calls(I.Flat(sweeps)), w).gone == p.gone
  }

  lemma RestFinish(p: Patient, ids: set<Id>, w: Draws, sweeps: seq<seq<Id>>, k: Id)
    requires Sound(p.sys, ids, w) && GonePosted(p, ids) && Swept(p, ids, sweeps, w) && k in ids - p.gone
    ensures LevelOf(Events(p, Calls(I.Flat(sweeps)), w).sys, k) >= 4
  {
    var turn, inv := StepsWithout(p.gone, w), SoundWithout(ids, p.gone, w);
    WithoutKeeps(ids, p.gone, w);
    WithoutMoves(ids, p.gone, w);
    assert inv(p.sys);
    I.SweepsFinish(turn, inv, Reached(), ids - p.gone, 4, p.sys, sweeps);
    I.SweepsAreTurns(turn, p.sys, sweeps);
    EventsAreTurns(p, I.Flat(sweeps), w);
    assert Reached()(I.RunSweeps(turn, p.sys, sweeps), k) >= 4;
  }

  /** From any reachable state, when the rest go on for four sweeps with nobody more
      giving up, they finish exactly when all that gave up had posted for round two. */
  lemma RestFinishExactlyWhen(ids: set<Id>, w: Draws, es: seq<Event>, sweeps: seq<seq<Id>>, k: Id)
    requires k in ids - Since(ids, w, es).gone && Swept(Since(ids, w, es), ids, sweeps, w)
    ensures LevelOf(Events(Since(ids, w, es), Calls(I.Flat(sweeps)), w).sys, k) >= 4
       <==> GonePosted(Since(ids, w, es), ids)
  {
    var p := Since(ids, w, es);
    if GonePosted(p, ids) {
      StartsInRounds(ids, w);
      EventsKeep(Patient(Start(ids, w), map[], {}), es, ids, w);
      RestFinish(p, ids, w, sweeps, k);
    } else {
      var g :| g in ids && g in p.gone && LevelOf(p.sys, g) < 3;
      OneGoneStopsAll(ids, w, es, Calls(I.Flat(sweeps)), g, k);
    }
  }

  // ------------------------------------------------------------ the limit on polls

  /** How many of these turns are one participant's. */
  function Turns(schedule: seq<Id>, k: Id): nat {
    if schedule == [] then 0
    else Turns(schedule[..|schedule| - 1], k) + if schedule[|schedule| - 1] == k then 1 else 0
  }

  ghost predicate Patiently(schedule: seq<Id>) {
    forall k :: Turns(schedule, k) < POLLS
  }

  /** Nobody gives up in fewer turns than a poll has, when no connection is lost. */
  lemma {:induction false} NobodyGivesUp(ids: set<Id>, w: Draws, schedule: seq<Id>)
    requires Patiently(schedule)
    ensures var p := Since(ids, w, Calls(schedule));
            p.gone == {} && forall k :: Waited(p, k) <= Turns(schedule, k)
  {
    if schedule != [] {
      var n := |schedule| - 1;
      forall k ensures Turns(schedule[..n], k) < POLLS {
        assert Turns(schedule[..n], k) <= Turns(schedule, k);
      }
      NobodyGivesUp(ids, w, schedule[..n]);
      assert Calls(schedule)[..n] == Calls(schedule[..n]);
      var mid := Since(ids, w, Calls(schedule[..n]));
      assert Waited(mid, schedule[n]) <= Turns(schedule[..n], schedule[n]);
      assert Turns(schedule, schedule[n]) < POLLS;
      OneWait(mid, schedule[n], w);
    }
  }

  lemma OneWait(p: Patient, me: Id, w: Draws)
    requires me !in p.gone && Waited(p, me) + 1 < POLLS
    ensures var q := Happens(p, Call(me), w);
            && q.gone == p.gone && Waited(q, me) <= Waited(p, me) + 1
            && forall k :: k != me ==> Waited(q, k) == Waited(p, k)
  {
  }

  lemma {:induction false} NobodyWithout(w: Draws, s: System, schedule: seq<Id>)
    ensures I.Run(StepsWithout({}, w), s, schedule) == I.Run(Steps(w), s, schedule)
  {
    if schedule != [] {
      NobodyWithout(w, s, schedule[..|schedule| - 1]);
    }
  }

  /** So within that many turns each, and no connection lost, the ceremony runs as
      if nobody could give up, and four sweeps finish it for everybody. */
  lemma FinishedWithinPatience(ids: set<Id>, w: Draws, schedule: seq<Id>, sweeps: seq<seq<Id>>, k: Id)
    requires Patiently(schedule + I.Flat(sweeps)) && k in ids && |sweeps| == 4
    requires forall i, j :: 0 <= i < 4 && j in ids ==> j in sweeps[i]
    ensures var end := Since(ids, w, Calls(schedule + I.Flat(sweeps)));
            && end.gone == {} && end.sys == After(ids, w, schedule + I.Flat(sweeps))
            && k in end.sys.nodes && end.sys.nodes[k].phase.Finished?
  {
    var all := schedule + I.Flat(sweeps);
    NobodyGivesUp(ids, w, all);
    EventsAreTurns(Patient(Start(ids, w), map[], {}), all, w);
    NobodyWithout(w, Start(ids, w), all);
    FourSweepsFinish(ids, w, schedule, sweeps, k);
  }

  /** The bound is exact: one that has posted and is told to wait so often gives up. */
  lemma {:induction false} AloneGivesUp(ids: set<Id>, w: Draws, me: Id, n: nat)
    requires me in ids && |ids| >= 2 && n <= 600
    ensures var p := Since(ids, w, [Call(me)] + seq(n, _ => Call(me)));
            && (me in p.gone <==> n >= 600) && Waited(p, me) == n
            && p.sys == After(ids, w, [me]) && LevelOf(p.sys, me) == 1
  {
    var es := [Call(me)] + seq(n, _ => Call(me));
    if n == 0 {
      FirstCall(ids, w, me);
      assert es == [Call(me)];
    } else {
      var before := [Call(me)] + seq(n - 1, _ => Call(me));
      assert es[..|es| - 1] == before && es[|es| - 1] == Call(me);
      AloneGivesUp(ids, w, me, n - 1);
      FirstCall(ids, w, me);
      AloneWaits(Since(ids, w, before), me, w);
    }
  }

  /** Alone at the relay after posting. */
  ghost predicate AloneThere(s: System, me: Id) {
    me in s.nodes && s.nodes[me].phase.Posted? && |s.relay.r1| < s.relay.expected
  }

  lemma FirstCall(ids: set<Id>, w: Draws, me: Id)
    requires me in ids && |ids| >= 2
    ensures var p := Since(ids, w, [Call(me)]);
            && p.gone == {} && Waited(p, me) == 0
            && p.sys == After(ids, w, [me]) && AloneThere(p.sys, me)
  {
    var s := Start(ids, w);
    var p := Patient(s, map[], {});
    var es, schedule := [Call(me)], [me];
    assert es[..0] == [] && schedule[..0] == [];
    assert Events(p, [], w) == p && I.Run(Steps(w), s, []) == s;
    assert Since(ids, w, es) == Happens(p, Call(me), w);
    assert After(ids, w, schedule) == Step(s, me, w);
  }

  lemma AloneWaits(p: Patient, me: Id, w: Draws)
    requires AloneThere(p.sys, me) && me !in p.gone
    ensures var q := Happens(p, Call(me), w);
            && q.sys == p.sys && Waited(q, me) == Waited(p, me) + 1
            && (me in q.gone <==> Waited(q, me) >= POLLS)
  {
    assert p.sys.nodes[me := p.sys.nodes[me]] == p.sys.nodes;
  }
}
