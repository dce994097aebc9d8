/** discover.c: the weekly picks. */
module Discover {
  type Sha = string

  /** An empty album has no cap. */
  datatype Cand = Cand(sha: Sha, album: string, size: int, reason: string)

  // ---- shuffle -------------------------------------------------------------

  function Swapped<T>(s: seq<T>, i: nat, j: nat): (r: seq<T>)
    requires i < |s| && j < |s|
    ensures |r| == |s|
  {
    s[i := s[j]][j := s[i]]
  }

  /** draws[i] is the generator's output when i entries are left to place. */
  function Shuffled<T>(s: seq<T>, n: nat, draws: seq<nat>): (r: seq<T>)
    requires n <= |s| && n < |draws|
    ensures |r| == |s|
    decreases n
  {
    if n <= 1 then s else Shuffled(Swapped(s, n - 1, draws[n] % n), n - 1, draws)
  }

  lemma SwapPermutes<T>(s: seq<T>, i: nat, j: nat)
    requires i < |s| && j < |s|
    ensures multiset(Swapped(s, i, j)) == multiset(s)
  {
  }

  lemma {:induction false} ShufflePermutes<T>(s: seq<T>, n: nat, draws: seq<nat>)
    requires n <= |s| && n < |draws|
    ensures multiset(Shuffled(s, n, draws)) == multiset(s)
    decreases n
  {
    if n > 1 {
      ShufflePermutes(Swapped(s, n - 1, draws[n] % n), n - 1, draws);
      SwapPermutes(s, n - 1, draws[n] % n);
    }
  }

  method Shuffle<T>(items: array<T>, draws: seq<nat>)
    requires items.Length < |draws|
    modifies items
    ensures items[..] == Shuffled(old(items[..]), items.Length, draws)
    ensures multiset(items[..]) == multiset(old(items[..]))
  {
    ghost var was := items[..];
    var i := items.Length;
    while i > 1
      invariant 0 <= i <= items.Length
      invariant Shuffled(items[..], i, draws) == Shuffled(was, items.Length, draws)
    {
      var j := draws[i] % i;
      SwapAt(items, i - 1, j);
      i := i - 1;
    }
    ShufflePermutes(was, items.Length, draws);
  }

  method SwapAt<T>(items: array<T>, i: nat, j: nat)
    requires i < items.Length && j < items.Length
    modifies items
    ensures items[..] == Swapped(old(items[..]), i, j)
  {
    items[i], items[j] := items[j], items[i];
  }

  lemma ShuffledSameDraws<T>(s: seq<T>, n: nat, draws: seq<nat>, last: nat)
    requires n <= |s| && n < |draws|
    ensures Shuffled(s, n, draws + [last]) == Shuffled(s, n, draws)
    decreases n
  {
    if n > 1 { ShuffledSameDraws(Swapped(s, n - 1, draws[n] % n), n - 1, draws, last); }
  }

  /** t is s with its first n entries in some other order. */
  ghost predicate Rearranged<T>(s: seq<T>, t: seq<T>, n: nat) {
    n <= |s| == |t| && multiset(s[..n]) == multiset(t[..n]) && s[n..] == t[n..]
  }

  lemma SameButLast<T>(a: seq<T>, b: seq<T>, x: T)
    requires multiset(a + [x]) == multiset(b + [x])
    ensures multiset(a) == multiset(b)
  {
    assert multiset(a) == multiset(a + [x]) - multiset{x};
    assert multiset(b) == multiset(b + [x]) - multiset{x};
  }

  lemma SwapFront<T>(s: seq<T>, n: nat, j: nat)
    requires j < n <= |s|
    ensures var u := Swapped(s, n - 1, j);
            u[..n - 1] + [s[j]] == Swapped(s[..n], n - 1, j) && u[n - 1..] == [s[j]] + s[n..]
  {
  }

  lemma WhereLast<T>(s: seq<T>, t: seq<T>, n: nat) returns (j: nat)
    requires 0 < n && Rearranged(s, t, n)
    ensures j < n && s[j] == t[n - 1]
  {
    assert t[..n][n - 1] in multiset(t[..n]);
    assert t[n - 1] in s[..n];
    j :| 0 <= j < n && s[..n][j] == t[n - 1];
  }

  /** Swapping t's last element into place leaves the same problem, one shorter. */
  lemma PlaceLast<T>(s: seq<T>, t: seq<T>, n: nat) returns (j: nat)
    requires 0 < n && Rearranged(s, t, n)
    ensures j < n && Rearranged(Swapped(s, n - 1, j), t, n - 1)
  {
    j := WhereLast(s, t, n);
    SwapFront(s, n, j);
    SwapPermutes(s[..n], n - 1, j);
    assert t[..n] == t[..n - 1] + [t[n - 1]] && t[n - 1..] == [t[n - 1]] + t[n..];
    SameButLast(Swapped(s, n - 1, j)[..n - 1], t[..n - 1], t[n - 1]);
  }

  lemma OneOrder<T>(s: seq<T>, t: seq<T>, n: nat)
    requires n <= 1 && Rearranged(s, t, n)
    ensures s == t
  {
    assert s == s[..n] + s[n..] && t == t[..n] + t[n..];
    if n == 1 {
      assert s[..1] == [s[0]] && t[..1] == [t[0]];
      assert t[0] in multiset(s[..1]);
    }
  }

  lemma SmallMod(j: nat, n: nat)
    requires j < n
    ensures j % n == j
  {
  }

  lemma ShuffledFirst<T>(s: seq<T>, n: nat, draws: seq<nat>, j: nat)
    requires j < n && 1 < n <= |s| && |draws| == n
    ensures Shuffled(s, n, draws + [j]) == Shuffled(Swapped(s, n - 1, j), n - 1, draws)
  {
    SmallMod(j, n);
    ShuffledSameDraws(Swapped(s, n - 1, j), n - 1, draws, j);
  }

  /** Every arrangement of the pool is the outcome of some draws. */
  lemma {:induction false} EveryOrderPossible<T>(s: seq<T>, t: seq<T>, n: nat) returns (draws: seq<nat>)
    requires Rearranged(s, t, n)
    ensures |draws| == n + 1 && Shuffled(s, n, draws) == t
    decreases n
  {
    if n == 0 {
      draws := [0];
      OneOrder(s, t, n);
    } else {
      var j := PlaceLast(s, t, n);
      var rest := EveryOrderPossible(Swapped(s, n - 1, j), t, n - 1);
      draws := rest + [j];
      if n == 1 { OneOrder(s, t, n); } else { ShuffledFirst(s, n, rest, j); }
    }
  }

  // ---- take_from_pool ------------------------------------------------------

  const PER_ALBUM_CAP := 2

  function Count(picks: seq<Cand>, album: string): nat {
    if picks == [] then 0 else
    Count(picks[..|picks| - 1], album) + if picks[|picks| - 1].album == album then 1 else 0
  }

  function Shas(picks: seq<Cand>): (r: seq<Sha>)
    ensures |r| == |picks| && forall i :: 0 <= i < |r| ==> r[i] == picks[i].sha
  {
    seq(|picks|, i requires 0 <= i < |picks| => picks[i].sha)
  }

  predicate Blocked(picks: seq<Cand>, c: Cand) {
    c.sha in Shas(picks) || (c.album != "" && Count(picks, c.album) >= PER_ALBUM_CAP)
  }

  /** Picks taken in pool order, skipping the blocked ones. */
  function Take(pool: seq<Cand>, picks: seq<Cand>, target: int): seq<Cand> {
    if pool == [] || target <= 0 then picks
    else if Blocked(picks, pool[0]) then Take(pool[1..], picks, target)
    else Take(pool[1..], picks + [pool[0]], target - 1)
  }

  /** After i candidates of the pool, picks and left are what is to go on from. */
  ghost predicate TakeSoFar(pool: seq<Cand>, from: seq<Cand>, target: int, i: nat, picks: seq<Cand>, left: int) {
    i <= |pool| && Take(pool[i..], picks, left) == Take(pool, from, target)
  }

  lemma TakeStart(pool: seq<Cand>, from: seq<Cand>, target: int)
    ensures TakeSoFar(pool, from, target, 0, from, target)
  {
    assert pool[0..] == pool;
  }

  lemma TakeStep(pool: seq<Cand>, from: seq<Cand>, target: int, i: nat, picks: seq<Cand>, left: int)
    requires TakeSoFar(pool, from, target, i, picks, left) && i < |pool| && left > 0
    ensures if Blocked(picks, pool[i]) then TakeSoFar(pool, from, target, i + 1, picks, left)
            else TakeSoFar(pool, from, target, i + 1, picks + [pool[i]], left - 1)
  {
    assert pool[i..][1..] == pool[i + 1..];
  }

  lemma TakeEnd(pool: seq<Cand>, from: seq<Cand>, target: int, i: nat, picks: seq<Cand>, left: int)
    requires TakeSoFar(pool, from, target, i, picks, left) && (i == |pool| || left <= 0)
    ensures picks == Take(pool, from, target)
  {}

  /** What every list of picks keeps. */
  ghost predicate Fair(picks: seq<Cand>) {
    && (forall i, j :: 0 <= i < j < |picks| ==> picks[i].sha != picks[j].sha)
    && (forall a :: a != "" ==> Count(picks, a) <= PER_ALBUM_CAP)
  }

  lemma CountSnoc(picks: seq<Cand>, c: Cand, album: string)
    ensures Count(picks + [c], album) == Count(picks, album) + if c.album == album then 1 else 0
  {
    assert (picks + [c])[..|picks|] == picks;
  }

  lemma FairSnoc(picks: seq<Cand>, c: Cand)
    requires Fair(picks) && !Blocked(picks, c)
    ensures Fair(picks + [c])
  {
    forall i | 0 <= i < |picks| ensures picks[i].sha != c.sha { assert Shas(picks)[i] in Shas(picks); }
    forall a | a != "" ensures Count(picks + [c], a) <= PER_ALBUM_CAP { CountSnoc(picks, c, a); }
  }

  /** A longer list of picks blocks no less. */
  lemma StaysBlocked(picks: seq<Cand>, more: Cand, c: Cand)
    requires Blocked(picks, c)
    ensures Blocked(picks + [more], c)
  {
    CountSnoc(picks, more, c.album);
    if c.sha in Shas(picks) {
      var i :| 0 <= i < |picks| && Shas(picks)[i] == c.sha;
      assert Shas(picks + [more])[i] == c.sha;
    }
  }

  lemma NowBlocked(picks: seq<Cand>, c: Cand)
    ensures Blocked(picks + [c], c)
  {
    assert Shas(picks + [c])[|picks|] == c.sha;
  }

  lemma {:induction false} TakeKeeps(pool: seq<Cand>, picks: seq<Cand>, target: int, c: Cand)
    ensures Blocked(picks, c) ==> Blocked(Take(pool, picks, target), c)
  {
    if pool != [] && target > 0 {
      if Blocked(picks, pool[0]) {
        TakeKeeps(pool[1..], picks, target, c);
      } else {
        if Blocked(picks, c) { StaysBlocked(picks, pool[0], c); }
        TakeKeeps(pool[1..], picks + [pool[0]], target - 1, c);
      }
    }
  }

  lemma {:induction false} TakeGrows(pool: seq<Cand>, picks: seq<Cand>, target: int)
    ensures picks <= Take(pool, picks, target)
    ensures |Take(pool, picks, target)| <= |picks| + (if target > 0 then target else 0)
  {
    if pool != [] && target > 0 {
      if Blocked(picks, pool[0]) {
        TakeGrows(pool[1..], picks, target);
      } else {
        TakeGrows(pool[1..], picks + [pool[0]], target - 1);
      }
    }
  }

  lemma {:induction false} TakeFair(pool: seq<Cand>, picks: seq<Cand>, target: int)
    requires Fair(picks)
    ensures Fair(Take(pool, picks, target))
  {
    if pool != [] && target > 0 {
      if Blocked(picks, pool[0]) {
        TakeFair(pool[1..], picks, target);
      } else {
        FairSnoc(picks, pool[0]);
        TakeFair(pool[1..], picks + [pool[0]], target - 1);
      }
    }
  }

  lemma {:induction false} TakeMembers(pool: seq<Cand>, picks: seq<Cand>, target: int, c: Cand)
    requires c in Take(pool, picks, target)
    ensures c in picks || c in pool
  {
    if pool != [] && target > 0 {
      if Blocked(picks, pool[0]) {
        TakeMembers(pool[1..], picks, target, c);
      } else {
        TakeMembers(pool[1..], picks + [pool[0]], target - 1, c);
      }
    }
  }

  lemma {:induction false} TakeShort(pool: seq<Cand>, picks: seq<Cand>, target: int, c: Cand)
    requires |Take(pool, picks, target)| < |picks| + target && c in pool
    ensures Blocked(Take(pool, picks, target), c)
  {
    var rest := pool[1..];
    assert pool == [pool[0]] + rest;
    if Blocked(picks, pool[0]) {
      if c == pool[0] { TakeKeeps(rest, picks, target, c); } else { TakeShort(rest, picks, target, c); }
    } else {
      NowBlocked(picks, pool[0]);
      if c == pool[0] {
        TakeKeeps(rest, picks + [pool[0]], target - 1, c);
      } else {
        TakeShort(rest, picks + [pool[0]], target - 1, c);
      }
    }
  }

  /** Taking adds at most target picks, all from the pool, and stops short only
      when everything in the pool is blocked. */
  lemma TakeIs(pool: seq<Cand>, picks: seq<Cand>, target: int)
    requires Fair(picks)
    ensures var r := Take(pool, picks, target);
            && Fair(r) && picks <= r
            && |r| <= |picks| + (if target > 0 then target else 0)
            && (forall c :: c in r ==> c in picks || c in pool)
            && (|r| < |picks| + target ==> forall c :: c in pool ==> Blocked(r, c))
  {
    var r := Take(pool, picks, target);
    TakeGrows(pool, picks, target);
    TakeFair(pool, picks, target);
    forall c | c in r ensures c in picks || c in pool { TakeMembers(pool, picks, target, c); }
    if |r| < |picks| + target {
      forall c | c in pool ensures Blocked(r, c) { TakeShort(pool, picks, target, c); }
    }
  }

  // ---- discover_run --------------------------------------------------------

  function Quota(count: int, percent: int): int { (count * percent + 99) / 100 }

  function QuotaSum(count: int): int { Quota(count, 50) + Quota(count, 25) + Quota(count, 15) }

  /** Rounding up makes the three quotas overrun just these counts. */
  lemma QuotasFit(count: int)
    requires count > 0
    ensures QuotaSum(count) <= count <==> count !in {1, 2, 3, 5, 7, 9}
  {
  }

  function Pick(never: seq<Cand>, aged: seq<Cand>, adjacent: seq<Cand>, fill: seq<Cand>, count: int): seq<Cand> {
    var a := Take(never, [], Quota(count, 50));
    var b := Take(aged, a, Quota(count, 25));
    var c := Take(adjacent, b, Quota(count, 15));
    Take(fill, c, count - |c|)
  }

  /** The week's picks: fair, no more than asked unless the quotas alone are
      more, and short only when the whole fill pool is blocked. */
  lemma PicksAreFair(never: seq<Cand>, aged: seq<Cand>, adjacent: seq<Cand>, fill: seq<Cand>, count: int)
    requires count > 0
    ensures var r := Pick(never, aged, adjacent, fill, count);
            && Fair(r)
            && |r| <= (if QuotaSum(count) > count then QuotaSum(count) else count)
            && (|r| < count ==> forall c :: c in fill ==> Blocked(r, c))
  {
    var a := Take(never, [], Quota(count, 50));
    var b := Take(aged, a, Quota(count, 25));
    var c := Take(adjacent, b, Quota(count, 15));
    var r := Take(fill, c, count - |c|);
    TakeFair(never, [], Quota(count, 50));
    TakeFair(aged, a, Quota(count, 25));
    TakeFair(adjacent, b, Quota(count, 15));
    TakeFair(fill, c, count - |c|);
    TakeGrows(never, [], Quota(count, 50));
    TakeGrows(aged, a, Quota(count, 25));
    TakeGrows(adjacent, b, Quota(count, 15));
    TakeGrows(fill, c, count - |c|);
    if |r| < count {
      forall x | x in fill ensures Blocked(r, x) { TakeShort(fill, c, count - |c|, x); }
    }
  }

  // ---- pools that overrun the count ----------------------------------------

  /** A sha of its own for each number. */
  function Name(i: nat): (s: Sha)
    ensures |s| == i
  {
    seq(i, k => 'x')
  }

  /** n candidates of an endless supply without albums. */
  function Supply(from: nat, n: nat): (r: seq<Cand>)
    ensures |r| == n && forall i :: 0 <= i < n ==> r[i] == Cand(Name(from + i), "", 0, "")
  {
    seq(n, i requires 0 <= i < n => Cand(Name(from + i), "", 0, ""))
  }

  lemma {:induction false} TakeSupply(from: nat, n: nat)
    ensures Take(Supply(from, n), Supply(0, from), n) == Supply(0, from + n)
    decreases n
  {
    if n == 0 {
    } else {
      var pool, picks := Supply(from, n), Supply(0, from);
      forall i | 0 <= i < from ensures Shas(picks)[i] != pool[0].sha { assert |Shas(picks)[i]| == i; }
      assert !Blocked(picks, pool[0]);
      assert pool[1..] == Supply(from + 1, n - 1) && picks + [pool[0]] == Supply(0, from + 1);
      TakeSupply(from + 1, n - 1);
    }
  }

  /** The bound is met: with enough candidates the three quotas are all taken,
      also when they exceed the count. */
  lemma QuotasTaken(count: int) returns (never: seq<Cand>, aged: seq<Cand>, adjacent: seq<Cand>)
    requires count > 0 && QuotaSum(count) >= count
    ensures |Pick(never, aged, adjacent, [], count)| == QuotaSum(count)
  {
    var a: nat, b: nat, c: nat := Quota(count, 50), Quota(count, 25), Quota(count, 15);
    never, aged, adjacent := Supply(0, a), Supply(a, b), Supply(a + b, c);
    assert Supply(0, 0) == [];
    TakeSupply(0, a);
    TakeSupply(a, b);
    TakeSupply(a + b, c);
  }

  // ---- the picker's arrays -------------------------------------------------

  datatype AlbumCount = AlbumCount(album: string, count: int)

  ghost predicate Listed(albums: seq<AlbumCount>, a: string) {
    exists i :: 0 <= i < |albums| && albums[i].album == a
  }

  /** The counter lists each album once, with its number of picks. */
  ghost predicate Counts(albums: seq<AlbumCount>, picks: seq<Cand>) {
    && (forall i, j :: 0 <= i < j < |albums| ==> albums[i].album != albums[j].album)
    && (forall i :: 0 <= i < |albums| ==> albums[i].album != "" && albums[i].count == Count(picks, albums[i].album))
    && (forall a {:trigger Listed(albums, a)} :: a != "" && Count(picks, a) > 0 ==> Listed(albums, a))
  }

  lemma CountsBumped(albums: seq<AlbumCount>, picks: seq<Cand>, i: nat)
    requires picks != [] && Counts(albums, picks[..|picks| - 1])
    requires i < |albums| && albums[i].album == picks[|picks| - 1].album
    ensures Counts(albums[i := AlbumCount(albums[i].album, albums[i].count + 1)], picks)
  {
    var front, after := picks[..|picks| - 1], albums[i := AlbumCount(albums[i].album, albums[i].count + 1)];
    assert picks == front + [picks[|picks| - 1]];
    forall a | a != "" && Count(picks, a) > 0 ensures Listed(after, a) {
      CountSnoc(front, picks[|picks| - 1], a);
      if a == albums[i].album {
        assert after[i].album == a;
      } else {
        assert Listed(albums, a);
        var k :| 0 <= k < |albums| && albums[k].album == a;
        assert after[k].album == a;
      }
    }
    forall k | 0 <= k < |after| ensures after[k].count == Count(picks, after[k].album) {
      CountSnoc(front, picks[|picks| - 1], after[k].album);
    }
  }

  lemma CountsAppended(albums: seq<AlbumCount>, picks: seq<Cand>)
    requires picks != [] && Counts(albums, picks[..|picks| - 1]) && picks[|picks| - 1].album != ""
    requires !Listed(albums, picks[|picks| - 1].album)
    ensures Counts(albums + [AlbumCount(picks[|picks| - 1].album, 1)], picks)
  {
    var front, last := picks[..|picks| - 1], picks[|picks| - 1];
    var after := albums + [AlbumCount(last.album, 1)];
    assert picks == front + [last];
    forall a | a != "" && Count(picks, a) > 0 ensures Listed(after, a) {
      CountSnoc(front, last, a);
      if a == last.album {
        assert after[|albums|].album == a;
      } else {
        assert Listed(albums, a);
        var k :| 0 <= k < |albums| && albums[k].album == a;
        assert after[k].album == a;
      }
    }
    forall k | 0 <= k < |after| ensures after[k].count == Count(picks, after[k].album) {
      CountSnoc(front, last, after[k].album);
    }
  }

  class Picker {
    var picks: seq<Cand>
    var picked: seq<Sha>
    var albums: seq<AlbumCount>

    ghost predicate Valid()
      reads this
    {
      picked == Shas(picks) && Counts(albums, picks)
    }

    constructor ()
      ensures Valid() && picks == []
    {
      picks, picked, albums := [], [], [];
    }

    method AcGet(album: string) returns (count: int)
      requires Valid()
      ensures count == if album == "" then 0 else Count(picks, album)
    {
      if album == "" { return 0; }
      for i := 0 to |albums|
        invariant forall k :: 0 <= k < i ==> albums[k].album != album
      {
        if albums[i].album == album { return albums[i].count; }
      }
      assert !Listed(albums, album);
      return 0;
    }

    method AcInc(album: string)
      requires |picks| > 0 && picks[|picks| - 1].album == album && Counts(albums, picks[..|picks| - 1])
      modifies this`albums
      ensures Counts(albums, picks)
    {
      if album == "" { return; }
      for i := 0 to |albums|
        invariant forall k :: 0 <= k < i ==> albums[k].album != album
        invariant albums == old(albums)
      {
        if albums[i].album == album {
          albums := albums[i := AlbumCount(album, albums[i].count + 1)];
          CountsBumped(old(albums), picks, i);
          return;
        }
      }
      assert !Listed(albums, album);
      albums := albums + [AlbumCount(album, 1)];
      CountsAppended(old(albums), picks);
    }

    /** The three updates for one pick. */
    method Accept(c: Cand)
      requires Valid()
      modifies this
      ensures Valid() && picks == old(picks) + [c]
    {
      ghost var was := picks;
      picks := picks + [c];
      picked := picked + [c.sha];
      assert picks[..|picks| - 1] == was;
      AcInc(c.album);
    }

    /** Candidate i of a pool, of which left more are to be taken. */
    method TakeNext(pool: seq<Cand>, i: nat, left: int, ghost from: seq<Cand>, ghost target: int) returns (took: bool)
      requires Valid() && TakeSoFar(pool, from, target, i, picks, left) && i < |pool| && left > 0
      modifies this
      ensures Valid() && took == !Blocked(old(picks), pool[i])
      ensures picks == if took then old(picks) + [pool[i]] else old(picks)
      ensures TakeSoFar(pool, from, target, i + 1, picks, if took then left - 1 else left)
    {
      TakeStep(pool, from, target, i, picks, left);
      var c := pool[i];
      if c.sha in picked { return false; }
      var count := AcGet(c.album);
      if count >= PER_ALBUM_CAP { return false; }
      Accept(c);
      return true;
    }

    method TakeFromPool(pool: seq<Cand>, target: int) returns (taken: int)
      requires Valid()
      modifies this
      ensures Valid() && picks == Take(pool, old(picks), target) && taken == |picks| - |old(picks)|
    {
      ghost var from := picks;
      taken := 0;
      var i := 0;
      TakeStart(pool, picks, target);
      while i < |pool| && taken < target
        invariant 0 <= i && Valid() && taken == |picks| - |from|
        invariant TakeSoFar(pool, from, target, i, picks, target - taken)
      {
        var took := TakeNext(pool, i, target - taken, from, target);
        i := i + 1;
        if took { taken := taken + 1; }
      }
      TakeEnd(pool, from, target, i, picks, target - taken);
    }

    method Run(never: seq<Cand>, aged: seq<Cand>, adjacent: seq<Cand>, fill: seq<Cand>, count: int)
      requires Valid() && picks == [] && count > 0
      modifies this
      ensures picks == Pick(never, aged, adjacent, fill, count)
    {
      var n := TakeFromPool(never, Quota(count, 50));
      n := TakeFromPool(aged, Quota(count, 25));
      n := TakeFromPool(adjacent, Quota(count, 15));
      Fill(fill, count);
    }

    /** The remainder, if there is one. */
    method Fill(fill: seq<Cand>, count: int)
      requires Valid()
      modifies this
      ensures Valid() && picks == Take(fill, old(picks), count - |old(picks)|)
    {
      var remaining := count - |picks|;
      if remaining > 0 { var n := TakeFromPool(fill, remaining); }
    }
  }
}
