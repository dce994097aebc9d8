/** AlbumUnitShuffle.kt: shuffling whole albums. An album is its track count, the
    shuffled album order is any permutation. */
module AlbumShuffle {
  import opened Prelude
  import opened Permutations

  function NonEmpty(albums: seq<nat>): (r: seq<nat>)
    ensures forall x :: x in r ==> x > 0
  {
    if albums == [] then [] else
    var r := NonEmpty(albums[..|albums| - 1]);
    if albums[|albums| - 1] > 0 then r + [albums[|albums| - 1]] else r
  }

  /** The tracks of all albums together. */
  function Tracks(albums: seq<nat>): nat {
    if albums == [] then 0 else albums[0] + Tracks(albums[1..])
  }

  lemma {:induction false} TracksSnoc(albums: seq<nat>, n: nat)
    ensures Tracks(albums + [n]) == Tracks(albums) + n
  {
    if albums == [] {
      assert [n][1..] == [];
    } else {
      assert (albums + [n])[1..] == albums[1..] + [n];
      TracksSnoc(albums[1..], n);
    }
  }

  lemma {:induction false} StartIsTracks(sizes: seq<nat>, a: nat)
    requires a <= |sizes|
    ensures Start(sizes, a) == Tracks(sizes[..a])
  {
    if a == 0 {
    } else {
      StartIsTracks(sizes, a - 1);
      assert sizes[..a] == sizes[..a - 1] + [sizes[a - 1]];
      TracksSnoc(sizes[..a - 1], sizes[a - 1]);
    }
  }

  /** Dropping empty albums drops no track. */
  lemma {:induction false} NonEmptyTracks(albums: seq<nat>)
    ensures Tracks(NonEmpty(albums)) == Tracks(albums)
  {
    if albums == [] {
    } else {
      var front, last := albums[..|albums| - 1], albums[|albums| - 1];
      assert albums == front + [last];
      NonEmptyTracks(front);
      TracksSnoc(front, last);
      TracksSnoc(NonEmpty(front), last);
    }
  }

  /** Tracks of the first a albums: where album a starts in the flat list. */
  function Start(sizes: seq<nat>, a: nat): nat
    requires a <= |sizes|
  {
    if a == 0 then 0 else Start(sizes, a - 1) + sizes[a - 1]
  }

  /** first, first + 1, ... */
  function Range(first: int, count: nat): (r: seq<int>)
    ensures |r| == count && forall k :: 0 <= k < count ==> r[k] == first + k
  {
    seq(count, k requires 0 <= k < count => first + k)
  }

  function Album(sizes: seq<nat>, a: nat): seq<int>
    requires a < |sizes|
  {
    Range(Start(sizes, a), sizes[a])
  }

  function Expand(sizes: seq<nat>, order: seq<int>): seq<int>
    requires Within(order, |sizes|)
  {
    if order == [] then [] else
    var n := |order| - 1;
    assert Within(order[..n], |sizes|);
    Expand(sizes, order[..n]) + Album(sizes, order[n])
  }

  lemma {:induction false} StartGrows(sizes: seq<nat>, a: nat, b: nat)
    requires a < b <= |sizes|
    ensures Start(sizes, a) + sizes[a] <= Start(sizes, b)
    decreases b
  {
    if a < b - 1 { StartGrows(sizes, a, b - 1); }
  }

  /** Every track is in one album. */
  lemma {:induction false} AlbumOf(sizes: seq<nat>, n: nat, x: int) returns (a: nat)
    requires n <= |sizes| && 0 <= x < Start(sizes, n)
    ensures a < n && Start(sizes, a) <= x < Start(sizes, a) + sizes[a]
  {
    if x < Start(sizes, n - 1) { a := AlbumOf(sizes, n - 1, x); } else { a := n - 1; }
  }

  /** Track x belongs to album a. */
  predicate InAlbum(sizes: seq<nat>, a: int, x: int) {
    0 <= a < |sizes| && Start(sizes, a) <= x < Start(sizes, a) + sizes[a]
  }

  lemma AlbumMembers(sizes: seq<nat>, a: nat, x: int)
    requires a < |sizes|
    ensures x in Album(sizes, a) <==> InAlbum(sizes, a, x)
  {
    if InAlbum(sizes, a, x) { assert Album(sizes, a)[x - Start(sizes, a)] == x; }
  }

  lemma {:induction false} ExpandMembers(sizes: seq<nat>, order: seq<int>, x: int)
    requires Within(order, |sizes|)
    ensures x in Expand(sizes, order) <==> exists i :: 0 <= i < |order| && InAlbum(sizes, order[i], x)
  {
    if order == [] {
    } else {
      var n := |order| - 1;
      var front := order[..n];
      ExpandMembers(sizes, front, x);
      AlbumMembers(sizes, order[n], x);
      assert order == front + [order[n]];
      if i :| 0 <= i < n && InAlbum(sizes, front[i], x) { assert InAlbum(sizes, order[i], x); }
      if i :| 0 <= i < |order| && InAlbum(sizes, order[i], x) && i < n { assert InAlbum(sizes, front[i], x); }
    }
  }

  /** No track of an album is among those of other albums. */
  lemma AlbumApart(sizes: seq<nat>, order: seq<int>, a: nat, x: int)
    requires Within(order, |sizes|) && a < |sizes| && a as int !in order && x in Expand(sizes, order)
    ensures x < Start(sizes, a) || Start(sizes, a) + sizes[a] <= x
  {
    ExpandMembers(sizes, order, x);
    var k :| 0 <= k < |order| && InAlbum(sizes, order[k], x);
    if order[k] < a { StartGrows(sizes, order[k], a); } else { StartGrows(sizes, a, order[k]); }
  }

  lemma {:induction false} ExpandDistinct(sizes: seq<nat>, order: seq<int>)
    requires Within(order, |sizes|) && Distinct(order)
    ensures Distinct(Expand(sizes, order)) && Within(Expand(sizes, order), Start(sizes, |sizes|))
  {
    if order == [] {
    } else {
      var n := |order| - 1;
      var front := Expand(sizes, order[..n]);
      ExpandDistinct(sizes, order[..n]);
      StartGrows(sizes, order[n], |sizes|);
      forall i | 0 <= i < |front| ensures front[i] !in Album(sizes, order[n]) {
        AlbumApart(sizes, order[..n], order[n], front[i]);
      }
    }
  }

  /** The expansion plays every track once. */
  lemma ExpandPermutes(sizes: seq<nat>, order: seq<int>)
    requires IsPermutation(order, |sizes|)
    ensures IsPermutation(Expand(sizes, order), Start(sizes, |sizes|))
  {
    var total := Start(sizes, |sizes|);
    ExpandDistinct(sizes, order);
    Onto(order, |sizes|);
    forall x | 0 <= x < total ensures x in Expand(sizes, order) {
      var a := AlbumOf(sizes, |sizes|, x);
      assert a as int in order;
      var i :| 0 <= i < |order| && order[i] == a;
      assert InAlbum(sizes, order[i], x);
      ExpandMembers(sizes, order, x);
    }
    FromOnto(Expand(sizes, order), total);
  }

  /** Each album is one run, its tracks in their own order. */
  lemma {:induction false} AlbumContiguous(sizes: seq<nat>, order: seq<int>, i: nat) returns (at: nat)
    requires Within(order, |sizes|) && i < |order|
    ensures at + sizes[order[i]] <= |Expand(sizes, order)|
    ensures Expand(sizes, order)[at..at + sizes[order[i]]] == Range(Start(sizes, order[i]), sizes[order[i]])
  {
    var n := |order| - 1;
    var front := Expand(sizes, order[..n]);
    if i == n {
      at := |front|;
    } else {
      at := AlbumContiguous(sizes, order[..n], i);
    }
  }

  lemma {:induction false} ExpandPrefix(sizes: seq<nat>, order: seq<int>, i: nat)
    requires Within(order, |sizes|) && i <= |order|
    ensures Within(order[..i], |sizes|) && Expand(sizes, order[..i]) <= Expand(sizes, order)
    decreases |order|
  {
    if i == |order| {
      assert order[..i] == order;
    } else {
      var n := |order| - 1;
      assert order[..n][..i] == order[..i];
      ExpandPrefix(sizes, order[..n], i);
    }
  }

  /** Where the i-th album of the order starts. */
  lemma AlbumAt(sizes: seq<nat>, order: seq<int>, i: nat) returns (at: nat, end: nat)
    requires Within(order, |sizes|) && i < |order|
    ensures Within(order[..i], |sizes|) && Within(order[..i + 1], |sizes|)
    ensures at == |Expand(sizes, order[..i])| && end == |Expand(sizes, order[..i + 1])| == at + sizes[order[i]]
    ensures end <= |Expand(sizes, order)|
    ensures Expand(sizes, order)[at..end] == Range(Start(sizes, order[i]), sizes[order[i]])
  {
    ExpandPrefix(sizes, order, i);
    ExpandPrefix(sizes, order, i + 1);
    assert order[..i + 1][..i] == order[..i];
    at, end := |Expand(sizes, order[..i])|, |Expand(sizes, order[..i + 1])|;
    assert Expand(sizes, order)[at..end] == Expand(sizes, order[..i + 1])[at..end];
  }

  /** The albums stand in the shuffled order. */
  lemma AlbumsInOrder(sizes: seq<nat>, order: seq<int>, i: nat, j: nat) returns (at: nat, next: nat)
    requires Within(order, |sizes|) && i < j < |order|
    ensures at + sizes[order[i]] <= next && next + sizes[order[j]] <= |Expand(sizes, order)|
    ensures Expand(sizes, order)[at..at + sizes[order[i]]] == Range(Start(sizes, order[i]), sizes[order[i]])
    ensures Expand(sizes, order)[next..next + sizes[order[j]]] == Range(Start(sizes, order[j]), sizes[order[j]])
  {
    var end, last;
    at, end := AlbumAt(sizes, order, i);
    next, last := AlbumAt(sizes, order, j);
    assert order[..j][..i + 1] == order[..i + 1];
    ExpandPrefix(sizes, order[..j], i + 1);
  }

  lemma PrefixFits(sizes: seq<nat>, order: seq<int>, i: nat)
    requires IsPermutation(order, |sizes|) && i <= |order|
    ensures Within(order[..i], |sizes|) && |Expand(sizes, order[..i])| <= Start(sizes, |sizes|)
  {
    ExpandDistinct(sizes, order[..i]);
    ShortEnough(Expand(sizes, order[..i]), Start(sizes, |sizes|));
  }

  /** The inner loop: writes one album after what is there. */
  method WriteAlbum(start: int, size: nat, write: nat, out: array<int>) returns (end: nat)
    requires write + size <= out.Length
    modifies out
    ensures end == write + size && out[..end] == old(out[..write]) + Range(start, size)
  {
    for k := 0 to size
      invariant out[..write + k] == old(out[..write]) + Range(start, k)
    {
      out[write + k] := start + k;
    }
    end := write + size;
  }

  method DropEmpty(albums: seq<nat>) returns (sizes: seq<nat>)
    ensures sizes == NonEmpty(albums)
  {
    sizes := [];
    for i := 0 to |albums|
      invariant sizes == NonEmpty(albums[..i])
    {
      assert albums[..i + 1][..i] == albums[..i];
      if albums[i] > 0 { sizes := sizes + [albums[i]]; }
    }
    assert albums[..|albums|] == albums;
  }

  method Starts(sizes: seq<nat>) returns (starts: array<int>, total: nat)
    ensures fresh(starts) && starts.Length == |sizes| && total == Start(sizes, |sizes|)
    ensures forall a :: 0 <= a < |sizes| ==> starts[a] == Start(sizes, a)
  {
    starts, total := new int[|sizes|], 0;
    for i := 0 to |sizes|
      invariant total == Start(sizes, i)
      invariant forall a :: 0 <= a < i ==> starts[a] == Start(sizes, a)
    {
      starts[i] := total;
      total := total + sizes[i];
    }
  }

  method BuildShuffledIndices(albums: seq<nat>, order: seq<int>) returns (out: array<int>)
    requires IsPermutation(order, |NonEmpty(albums)|)
    ensures out[..] == Expand(NonEmpty(albums), order)
    ensures IsPermutation(out[..], Start(NonEmpty(albums), |NonEmpty(albums)|))
    ensures out.Length == Tracks(albums)
  {
    NonEmptyTracks(albums);
    StartIsTracks(NonEmpty(albums), |NonEmpty(albums)|);
    assert NonEmpty(albums)[..|NonEmpty(albums)|] == NonEmpty(albums);
    var sizes := DropEmpty(albums);
    var starts, total := Starts(sizes);
    ExpandPermutes(sizes, order);
    out := new int[total];
    var write := 0;
    for i := 0 to |order|
      invariant 0 <= write <= total && out[..write] == Expand(sizes, order[..i])
      invariant forall a :: 0 <= a < |sizes| ==> starts[a] == Start(sizes, a)
    {
      PrefixFits(sizes, order, i + 1);
      assert order[..i + 1][..i] == order[..i];
      write := WriteAlbum(starts[order[i]], sizes[order[i]], write, out);
    }
    assert order[..|order|] == order && out[..total] == out[..];
  }
}
