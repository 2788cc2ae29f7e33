/** Which thresholds a vault may have (src/ceremony.rs). */
module Ceremony {
  import opened Prelude

  type u16 = x: int | 0 <= x < 0x1_0000

  datatype CeremonyError = TooFewParticipants | ThresholdNotAMajority

  datatype Shape = Shape(threshold: u16, participants: u16)

  /** The participants, numbered from one. */
  function Members(n: nat): (s: set<nat>)
    ensures |s| == n && forall x :: x in s <==> 1 <= x <= n
  {
    Between(1, n + 1)
  }

  function Between(a: nat, b: nat): (s: set<nat>)
    requires a <= b
    ensures |s| == b - a && forall x :: x in s <==> a <= x < b
    decreases b
  {
    if a == b then {} else Between(a, b - 1) + {b - 1}
  }

  lemma {:induction false} SubsetSize<T>(a: set<T>, b: set<T>)
    requires a <= b
    ensures |a| <= |b|
  {
    if a != {} {
      var x :| x in a;
      SubsetSize(a - {x}, b - {x});
    }
  }

  /** Two sets too large to lie side by side share a member. */
  lemma LargeSetsMeet<T>(a: set<T>, b: set<T>, all: set<T>)
    requires a <= all && b <= all && |a| + |b| > |all|
    ensures a * b != {}
  {
    SubsetSize(a + b, all);
  }

  /** Whichever participants sign, any two signing sets have one in common. */
  ghost predicate QuorumsMeet(t: nat, n: nat) {
    forall a, b :: a <= Members(n) && b <= Members(n) && |a| == t && |b| == t ==> a * b != {}
  }

  lemma MajorityExactlyWhenQuorumsMeet(t: nat, n: nat)
    requires 1 <= t <= n
    ensures QuorumsMeet(t, n) <==> 2 * t > n
  {
    if 2 * t > n {
      forall a, b | a <= Members(n) && b <= Members(n) && |a| == t && |b| == t ensures a * b != {} {
        LargeSetsMeet(a, b, Members(n));
      }
    } else {
      var a, b := Between(1, t + 1), Between(t + 1, 2 * t + 1);
      assert a <= Members(n) && b <= Members(n) && a * b == {};
    }
  }

  /** `Ceremony::new` accepts exactly the shapes in which a signature can be made
      at all and no two signatures come from disjoint sets of custodians. */
  function New(threshold: u16, participants: u16): (r: Result<Shape, CeremonyError>)
    ensures r.Ok? <==> participants >= 2 && 1 <= threshold <= participants && QuorumsMeet(threshold, participants)
    ensures r.Ok? ==> r.value == Shape(threshold, participants)
    ensures r == Err(TooFewParticipants) <==> participants < 2
  {
    if participants < 2 then Err(TooFewParticipants)
    else if threshold == 0 || threshold > participants then Err(ThresholdNotAMajority)
    else
      MajorityExactlyWhenQuorumsMeet(threshold, participants);
      if threshold * 2 <= participants then Err(ThresholdNotAMajority)
      else Ok(Shape(threshold, participants))
  }
}
