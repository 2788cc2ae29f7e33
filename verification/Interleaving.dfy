/** Machines that take turns in any order: what holds of every schedule when it
    holds of every turn. */
module Interleaving {

  /** A machine's turn, what is kept, and how far each machine has come. */
  type Turns<!S> = (S, nat) -> S

  type Kept<!S> = S -> bool

  type Levels<!S> = (S, nat) -> nat

  function Run<S>(turn: Turns<S>, s: S, schedule: seq<nat>): S {
    if schedule == [] then s else turn(Run(turn, s, schedule[..|schedule| - 1]), schedule[|schedule| - 1])
  }

  /** Every turn keeps the invariant and takes nobody back. */
  ghost predicate Keeps<S(!new)>(turn: Turns<S>, inv: Kept<S>, level: Levels<S>) {
    && (forall s, me :: inv(s) ==> inv(turn(s, me)))
    && (forall s, me, k :: inv(s) ==> level(turn(s, me), k) >= level(s, k))
  }

  ghost predicate AllReached<S>(s: S, ids: set<nat>, level: Levels<S>, n: nat) {
    forall k :: k in ids ==> level(s, k) >= n
  }

  /** Where everyone has come as far, a turn takes its machine further. */
  ghost predicate Moves<S(!new)>(turn: Turns<S>, inv: Kept<S>, level: Levels<S>, ids: set<nat>, top: nat) {
    forall s, me, n: nat :: inv(s) && me in ids && n < top && AllReached(s, ids, level, n) ==>
      level(turn(s, me), me) >= n + 1
  }

  lemma {:induction false} RunKeeps<S(!new)>(
      turn: Turns<S>, inv: Kept<S>, level: Levels<S>, s: S, schedule: seq<nat>, k: nat)
    requires Keeps(turn, inv, level) && inv(s)
    ensures inv(Run(turn, s, schedule)) && level(Run(turn, s, schedule), k) >= level(s, k)
  {
    if schedule != [] {
      RunKeeps(turn, inv, level, s, schedule[..|schedule| - 1], k);
    }
  }

  lemma {:induction false} OneSweep<S(!new)>(
      turn: Turns<S>, inv: Kept<S>, level: Levels<S>, ids: set<nat>, top: nat, s: S, schedule: seq<nat>, n: nat, k: nat)
    requires Keeps(turn, inv, level) && Moves(turn, inv, level, ids, top) && inv(s)
    requires n < top && AllReached(s, ids, level, n) && k in ids && k in schedule
    ensures level(Run(turn, s, schedule), k) >= n + 1
  {
    var m := |schedule| - 1;
    var mid := Run(turn, s, schedule[..m]);
    RunKeeps(turn, inv, level, s, schedule[..m], k);
    if k in schedule[..m] {
      OneSweep(turn, inv, level, ids, top, s, schedule[..m], n, k);
    } else {
      forall j | j in ids ensures level(mid, j) >= n {
        RunKeeps(turn, inv, level, s, schedule[..m], j);
      }
      assert schedule[m] == k && AllReached(mid, ids, level, n);
      assert level(turn(mid, k), k) >= n + 1;
    }
  }

  /** Schedules one after another, in each of which everybody gets a turn. */
  function RunSweeps<S>(turn: Turns<S>, s: S, sweeps: seq<seq<nat>>): S {
    if sweeps == [] then s else Run(turn, RunSweeps(turn, s, sweeps[..|sweeps| - 1]), sweeps[|sweeps| - 1])
  }

  /** The same turns as one schedule. */
  function Flat(sweeps: seq<seq<nat>>): seq<nat> {
    if sweeps == [] then [] else Flat(sweeps[..|sweeps| - 1]) + sweeps[|sweeps| - 1]
  }

  lemma {:induction false} RunJoins<S>(turn: Turns<S>, s: S, a: seq<nat>, b: seq<nat>)
    ensures Run(turn, s, a + b) == Run(turn, Run(turn, s, a), b)
  {
    if b == [] {
      assert a + b == a;
    } else {
      var n := |b| - 1;
      RunJoins(turn, s, a, b[..n]);
      assert (a + b)[..|a| + n] == a + b[..n];
    }
  }

  lemma {:induction false} SweepsAreTurns<S>(turn: Turns<S>, s: S, sweeps: seq<seq<nat>>)
    ensures RunSweeps(turn, s, sweeps) == Run(turn, s, Flat(sweeps))
  {
    if sweeps != [] {
      SweepsAreTurns(turn, s, sweeps[..|sweeps| - 1]);
      RunJoins(turn, s, Flat(sweeps[..|sweeps| - 1]), sweeps[|sweeps| - 1]);
    }
  }

  lemma {:induction false} SweepsFinish<S(!new)>(
      turn: Turns<S>, inv: Kept<S>, level: Levels<S>, ids: set<nat>, top: nat, s: S, sweeps: seq<seq<nat>>)
    requires Keeps(turn, inv, level) && Moves(turn, inv, level, ids, top) && inv(s) && |sweeps| <= top
    requires forall i, k :: 0 <= i < |sweeps| && k in ids ==> k in sweeps[i]
    ensures inv(RunSweeps(turn, s, sweeps)) && AllReached(RunSweeps(turn, s, sweeps), ids, level, |sweeps|)
  {
    if sweeps != [] {
      var n := |sweeps| - 1;
      SweepsFinish(turn, inv, level, ids, top, s, sweeps[..n]);
      var mid := RunSweeps(turn, s, sweeps[..n]);
      RunKeeps(turn, inv, level, mid, sweeps[n], 0);
      forall k | k in ids ensures level(Run(turn, mid, sweeps[n]), k) >= n + 1 {
        OneSweep(turn, inv, level, ids, top, mid, sweeps[n], n, k);
      }
    }
  }

  /** Unless all are at the top, somebody's turn takes it further. */
  lemma SomeoneMoves<S(!new)>(turn: Turns<S>, inv: Kept<S>, level: Levels<S>, ids: set<nat>, top: nat, s: S, k: nat)
    returns (next: nat)
    requires Moves(turn, inv, level, ids, top) && inv(s) && k in ids && level(s, k) < top
    ensures next in ids && level(turn(s, next), next) > level(s, next)
  {
    next := Hindmost(level, ids, s, k);
  }

  lemma Hindmost<S>(level: Levels<S>, ids: set<nat>, s: S, k: nat) returns (least: nat)
    requires k in ids
    ensures least in ids && level(s, least) <= level(s, k) && AllReached(s, ids, level, level(s, least))
    decreases level(s, k)
  {
    if j :| j in ids && level(s, j) < level(s, k) {
      least := Hindmost(level, ids, s, j);
    } else {
      least := k;
    }
  }
}
