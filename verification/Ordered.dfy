/** Iterating an ordered set or map: keys in ascending order. */
module Ordered {

  lemma {:induction false} MinExists(s: set<nat>, n: nat)
    requires n in s
    ensures exists m :: m in s && forall x :: x in s ==> m <= x
    decreases n
  {
    if y :| y in s && y < n {
      MinExists(s, y);
    }
  }

  lemma SomeMin(s: set<nat>)
    requires s != {}
    ensures exists m :: m in s && forall x :: x in s ==> m <= x
  {
    var n :| n in s;
    MinExists(s, n);
  }

  function Min(s: set<nat>): (m: nat)
    requires s != {}
    ensures m in s && forall x :: x in s ==> m <= x
  {
    SomeMin(s);
    var m :| m in s && forall x :: x in s ==> m <= x;
    m
  }

  ghost predicate Increasing(xs: seq<nat>) {
    forall i, j :: 0 <= i < j < |xs| ==> xs[i] < xs[j]
  }

  /** The keys of a `BTreeSet` or `BTreeMap`, in iteration order. */
  function Ascending(s: set<nat>): (xs: seq<nat>)
    ensures Increasing(xs) && |xs| == |s|
    ensures forall x :: x in xs <==> x in s
  {
    if s == {} then [] else
      var m := Min(s);
      [m] + Ascending(s - {m})
  }
}
