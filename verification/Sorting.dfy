/** What the daemon uses of qsort: sorting distinct elements by a strict total
    order has one result. */
module Sorting {
  import opened Prelude

  ghost predicate StrictOrder<T(!new)>(before: (T, T) -> bool) {
    && (forall x :: !before(x, x))
    && (forall x, y, z :: before(x, y) && before(y, z) ==> before(x, z))
  }

  /** Any two different members can be compared. */
  ghost predicate Comparable<T>(s: seq<T>, before: (T, T) -> bool) {
    forall i, j :: 0 <= i < |s| && 0 <= j < |s| && s[i] != s[j] ==> before(s[i], s[j]) || before(s[j], s[i])
  }

  ghost predicate SortedBy<T>(s: seq<T>, before: (T, T) -> bool) {
    forall i, j :: 0 <= i < j < |s| ==> before(s[i], s[j])
  }

  ghost predicate SameMembers<T(!new)>(a: seq<T>, b: seq<T>) {
    forall x :: x in a <==> x in b
  }

  lemma HasMember<T>(s: seq<T>)
    requires s != []
    ensures exists x :: x in s
  {
    assert s[0] in s;
  }

  lemma {:induction false} SortedUnique<T(!new)>(a: seq<T>, b: seq<T>, before: (T, T) -> bool)
    requires StrictOrder(before) && SortedBy(a, before) && SortedBy(b, before) && SameMembers(a, b)
    ensures a == b
  {
    if a == [] {
      if b != [] { HasMember(b); }
    } else {
      assert a[0] in b;
      var i :| 0 <= i < |b| && b[i] == a[0];
      assert b[0] in a;
      var j :| 0 <= j < |a| && a[j] == b[0];
      assert i == 0 && j == 0;
      forall x ensures x in a[1..] <==> x in b[1..] {
        if x in a[1..] {
          var k :| 0 < k < |a| && a[k] == x;
          assert x in b && x != b[0];
        }
        if x in b[1..] {
          var k :| 0 < k < |b| && b[k] == x;
          assert x in a && x != a[0];
        }
      }
      SortedUnique(a[1..], b[1..], before);
    }
  }

  /** Insertion in place of qsort: same result, by SortedUnique. */
  method Sort<T(==, !new)>(s: seq<T>, before: (T, T) -> bool) returns (r: seq<T>)
    requires StrictOrder(before) && Comparable(s, before)
    requires Distinct(s)
    ensures SortedBy(r, before) && SameMembers(r, s) && |r| == |s|
  {
    r := [];
    for n := 0 to |s|
      invariant SortedBy(r, before) && SameMembers(r, s[..n]) && |r| == n
    {
      var x, at := s[n], 0;
      assert x !in s[..n];
      while at < |r| && before(r[at], x)
        invariant 0 <= at <= |r|
        invariant forall i :: 0 <= i < at ==> before(r[i], x)
      {
        at := at + 1;
      }
      forall i | at <= i < |r| ensures before(x, r[i]) {
        assert r[at] in s[..n];
        if i > at { assert before(r[at], r[i]); }
      }
      assert s[..n + 1] == s[..n] + [x];
      r := r[..at] + [x] + r[at..];
    }
    assert s[..|s|] == s;
  }

  function Members<T>(s: seq<T>): set<T> { set x | x in s }

  // ---- the lowest k members ------------------------------------------------

  ghost function Below<T>(s: set<T>, x: T, before: (T, T) -> bool): set<T> {
    set y | y in s && before(y, x)
  }

  /** The k lowest members of a set. */
  ghost function Lowest<T>(s: set<T>, k: nat, before: (T, T) -> bool): set<T> {
    set x | x in s && |Below(s, x, before)| < k
  }

  lemma PrefixSize<T>(s: seq<T>)
    requires Distinct(s)
    ensures |Members(s)| == |s|
  {
    if s == [] {
    } else {
      var front := s[..|s| - 1];
      PrefixSize(front);
      assert s == front + [s[|s| - 1]];
      assert Members(s) == Members(front) + {s[|s| - 1]};
    }
  }

  /** Taking the first k of the sorted list picks the lowest k. */
  lemma SortedPrefixIsLowest<T(!new)>(s: seq<T>, k: nat, before: (T, T) -> bool)
    requires StrictOrder(before) && SortedBy(s, before)
    ensures Members(s[..if k < |s| then k else |s|]) == Lowest(Members(s), k, before)
  {
    var all := Members(s);
    forall i | 0 <= i < |s| ensures |Below(all, s[i], before)| == i {
      assert Below(all, s[i], before) == Members(s[..i]);
      PrefixSize(s[..i]);
    }
    var m := if k < |s| then k else |s|;
    forall x ensures x in s[..m] <==> x in Lowest(all, k, before) {
      if x in s[..m] { var i :| 0 <= i < m && s[i] == x; }
      if x in all { var i :| 0 <= i < |s| && s[i] == x; }
    }
  }

  /** One more member takes at most its own place: no other is picked anew and
      at most one is dropped. */
  lemma LowestMargin<T(!new)>(s: set<T>, c: T, k: nat, before: (T, T) -> bool)
    requires StrictOrder(before) && c !in s
    requires forall x, y :: x in s && y in s && x != y ==> before(x, y) || before(y, x)
    ensures Lowest(s + {c}, k, before) <= Lowest(s, k, before) + {c}
    ensures |Lowest(s, k, before) - Lowest(s + {c}, k, before)| <= 1
  {
    var t := s + {c};
    forall x | x in s ensures Below(s, x, before) <= Below(t, x, before) <= Below(s, x, before) + {c} {}
    forall x | x in s ensures |Below(s, x, before)| <= |Below(t, x, before)| <= |Below(s, x, before)| + 1 {
      SubsetSize(Below(s, x, before), Below(t, x, before));
      SubsetSize(Below(t, x, before), Below(s, x, before) + {c});
    }
    var dropped := Lowest(s, k, before) - Lowest(t, k, before);
    forall x, y | x in dropped && y in dropped ensures x == y {
      if before(x, y) { BelowGrows(s, x, y, before); }
      if before(y, x) { BelowGrows(s, y, x, before); }
    }
    AtMostOne(dropped);
  }

  lemma {:induction false} SubsetSize<T>(a: set<T>, b: set<T>)
    requires a <= b
    ensures |a| <= |b|
  {
    assert b == a + (b - a);
  }

  lemma BelowGrows<T(!new)>(s: set<T>, x: T, y: T, before: (T, T) -> bool)
    requires StrictOrder(before) && x in s && before(x, y)
    ensures |Below(s, x, before)| < |Below(s, y, before)|
  {
    assert Below(s, x, before) + {x} <= Below(s, y, before);
    SubsetSize(Below(s, x, before) + {x}, Below(s, y, before));
  }

  lemma AtMostOne<T>(s: set<T>)
    requires forall x, y :: x in s && y in s ==> x == y
    ensures |s| <= 1
  {
    if x :| x in s { assert s == {x}; }
  }
}
