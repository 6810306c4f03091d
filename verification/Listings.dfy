/**
 Lists in which nothing is repeated.
 */
module Listings {

  predicate Distinct<T(==)>(s: seq<T>) {
    forall i, j :: 0 <= i < j < |s| ==> s[i] != s[j]
  }

  function Members<T(==)>(s: seq<T>): set<T> {
    set x | x in s
  }

  /** A set has as many members as a list of it. */
  lemma {:induction false} DistinctCount<T>(s: seq<T>, members: set<T>)
    requires Distinct(s) && forall x :: x in members <==> x in s
    ensures |s| == |members|
    decreases s
  {
    if s != [] {
      var n := |s| - 1;
      assert forall x :: x in s[..n] <==> x in s && x != s[n];
      DistinctCount(s[..n], members - {s[n]});
    } else {
      assert members == {};
    }
  }
}
