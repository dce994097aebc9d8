/** Lists of indices that play every position of a queue once. */
module Permutations {
  import opened Prelude

  ghost predicate Within(s: seq<int>, n: nat) { forall i :: 0 <= i < |s| ==> 0 <= s[i] < n }

  ghost predicate IsPermutation(s: seq<int>, n: nat) { |s| == n && Within(s, n) && Distinct(s) }

  lemma {:induction false} DistinctCount<T>(s: seq<T>)
    requires Distinct(s)
    ensures |set x | x in s| == |s|
  {
    if s == [] {
    } else {
      var front, last := s[..|s| - 1], s[|s| - 1];
      DistinctCount(front);
      assert s == front + [last];
      assert (set x | x in s) == (set x | x in front) + {last};
    }
  }

  function Below(n: nat): (r: set<int>)
    ensures |r| == n && forall x :: x in r <==> 0 <= x < n
  {
    if n == 0 then {} else Below(n - 1) + {n - 1}
  }

  lemma SubsetCount<T>(a: set<T>, b: set<T>)
    requires a <= b
    ensures |a| <= |b|
    ensures |a| == |b| ==> a == b
  {
    assert b == a + (b - a);
    if b - a == {} { assert a == b; }
  }

  lemma ShortEnough(s: seq<int>, n: nat)
    requires Within(s, n) && Distinct(s)
    ensures |s| <= n
  {
    DistinctCount(s);
    SubsetCount((set x | x in s), Below(n));
  }

  lemma Onto(s: seq<int>, n: nat)
    requires IsPermutation(s, n)
    ensures forall x :: x in s <==> 0 <= x < n
  {
    DistinctCount(s);
    var all := set x | x in s;
    SubsetCount(all, Below(n));
    assert forall x :: x in s <==> x in all;
  }

  lemma FromOnto(s: seq<int>, n: nat)
    requires Distinct(s) && forall x :: x in s <==> 0 <= x < n
    ensures IsPermutation(s, n)
  {
    DistinctCount(s);
    assert (set x | x in s) == Below(n);
    assert forall i :: 0 <= i < |s| ==> s[i] in s;
  }
}
