/** The week's picks told without counting: which pool each comes from, and why
    a candidate was passed over. */
module PickOrder {
  import opened Discover

  // ---- blocked -------------------------------------------------------------

  ghost predicate OneOf(picks: seq<Cand>, album: string) {
    exists i :: 0 <= i < |picks| && picks[i].album == album
  }

  ghost predicate TwoOf(picks: seq<Cand>, album: string) {
    exists i, j :: 0 <= i < j < |picks| && picks[i].album == picks[j].album == album
  }

  lemma OneOfSnoc(picks: seq<Cand>, c: Cand, album: string)
    ensures OneOf(picks + [c], album) <==> OneOf(picks, album) || c.album == album
  {
    var longer := picks + [c];
    assert longer[|picks|] == c;
    if OneOf(picks, album) {
      var i :| 0 <= i < |picks| && picks[i].album == album;
      assert longer[i] == picks[i];
    }
  }

  lemma TwoOfSnoc(picks: seq<Cand>, c: Cand, album: string)
    ensures TwoOf(picks + [c], album) <==> TwoOf(picks, album) || (OneOf(picks, album) && c.album == album)
  {
    var longer := picks + [c];
    assert longer[|picks|] == c;
    if TwoOf(picks, album) {
      var i, j :| 0 <= i < j < |picks| && picks[i].album == picks[j].album == album;
      assert longer[i] == picks[i] && longer[j] == picks[j];
    }
    if OneOf(picks, album) && c.album == album {
      var i :| 0 <= i < |picks| && picks[i].album == album;
      assert longer[i] == picks[i];
    }
    if TwoOf(longer, album) {
      var i, j :| 0 <= i < j < |longer| && longer[i].album == longer[j].album == album;
      assert longer[i] == picks[i];
      if j < |picks| { assert longer[j] == picks[j]; }
    }
  }

  lemma {:induction false} CountIs(picks: seq<Cand>, album: string)
    ensures Count(picks, album) >= 1 <==> OneOf(picks, album)
    ensures Count(picks, album) >= 2 <==> TwoOf(picks, album)
  {
    if picks == [] {
    } else {
      var front, last := picks[..|picks| - 1], picks[|picks| - 1];
      assert picks == front + [last];
      CountIs(front, album);
      OneOfSnoc(front, last, album);
      TwoOfSnoc(front, last, album);
    }
  }

  /** A candidate is blocked when its track is picked, or two of its album are. */
  lemma BlockedIs(picks: seq<Cand>, c: Cand)
    ensures Blocked(picks, c) <==>
            (exists i :: 0 <= i < |picks| && picks[i].sha == c.sha) || (c.album != "" && TwoOf(picks, c.album))
  {
    CountIs(picks, c.album);
    if c.sha in Shas(picks) {
      var i :| 0 <= i < |picks| && Shas(picks)[i] == c.sha;
      assert picks[i].sha == c.sha;
    }
    if i :| 0 <= i < |picks| && picks[i].sha == c.sha { assert Shas(picks)[i] == c.sha; }
  }

  lemma {:induction false} CountThree(r: seq<Cand>, i: nat, j: nat, k: nat)
    requires i < j < k < |r| && r[i].album == r[j].album == r[k].album
    ensures Count(r, r[i].album) >= 3
    decreases |r|
  {
    var front := r[..|r| - 1];
    if k < |front| {
      CountThree(front, i, j, k);
    } else {
      CountIs(front, r[i].album);
      assert front[i].album == front[j].album == r[i].album;
    }
  }

  /** No three of the week's picks are of one album. */
  lemma AtMostTwo(never: seq<Cand>, aged: seq<Cand>, adjacent: seq<Cand>, fill: seq<Cand>, count: int,
                  i: nat, j: nat, k: nat)
    requires count > 0 && i < j < k < |Pick(never, aged, adjacent, fill, count)|
    requires var r := Pick(never, aged, adjacent, fill, count); r[i].album == r[j].album == r[k].album
    ensures Pick(never, aged, adjacent, fill, count)[i].album == ""
  {
    PicksAreFair(never, aged, adjacent, fill, count);
    CountThree(Pick(never, aged, adjacent, fill, count), i, j, k);
  }

  // ---- in pool order -------------------------------------------------------

  /** Position j of the pool lies before the k-th place and behind the one before. */
  ghost predicate Between(places: seq<nat>, k: int, j: int) {
    0 <= k < |places| && 0 <= j < places[k] && (k > 0 ==> places[k - 1] < j)
  }

  /** The picks from n on stand in the pool at these places, one behind the
      other; each was not blocked by the picks before it, and everything between
      two of them was. */
  ghost predicate TakenFrom<T>(pool: seq<T>, r: seq<T>, n: nat, places: seq<nat>, blocked: (seq<T>, T) -> bool) {
    && n + |places| == |r|
    && (forall k :: 0 <= k < |places| ==>
          places[k] < |pool| && r[n + k] == pool[places[k]] && !blocked(r[..n + k], r[n + k]))
    && (forall k, j :: Between(places, k, j) ==> j < |pool| && blocked(r[..n + k], pool[j]))
    && (forall k :: 0 < k < |places| ==> places[k - 1] < places[k])
  }

  function Moved(places: seq<nat>): (r: seq<nat>)
    ensures |r| == |places| && forall k :: 0 <= k < |r| ==> r[k] == places[k] + 1
  {
    seq(|places|, k requires 0 <= k < |places| => places[k] + 1)
  }

  lemma TakenLater<T>(pool: seq<T>, r: seq<T>, n: nat, places: seq<nat>, blocked: (seq<T>, T) -> bool)
    requires pool != [] && TakenFrom(pool[1..], r, n, places, blocked) && blocked(r[..n], pool[0])
    requires forall k, c :: n <= k <= |r| && blocked(r[..n], c) ==> blocked(r[..k], c)
    ensures TakenFrom(pool, r, n, Moved(places), blocked)
  {
    var moved := Moved(places);
    forall k, j | Between(moved, k, j) ensures j < |pool| && blocked(r[..n + k], pool[j]) {
      if j > 0 { assert Between(places, k, j - 1) && pool[1..][j - 1] == pool[j]; }
    }
  }

  lemma TakenFirst<T>(pool: seq<T>, r: seq<T>, n: nat, places: seq<nat>, blocked: (seq<T>, T) -> bool)
    requires pool != [] && n < |r| && r[n] == pool[0] && !blocked(r[..n], pool[0])
    requires TakenFrom(pool[1..], r, n + 1, places, blocked)
    ensures TakenFrom(pool, r, n, [0] + Moved(places), blocked)
  {
    var moved := [0] + Moved(places);
    forall k | 0 <= k < |moved|
      ensures moved[k] < |pool| && r[n + k] == pool[moved[k]] && !blocked(r[..n + k], r[n + k])
    {
      if k > 0 { assert r[(n + 1) + (k - 1)] == pool[1..][places[k - 1]]; }
    }
    forall k, j | Between(moved, k, j) ensures j < |pool| && blocked(r[..n + k], pool[j]) {
      assert k > 0 && Between(places, k - 1, j - 1) && pool[1..][j - 1] == pool[j];
      assert (n + 1) + (k - 1) == n + k;
    }
  }

  /** What blocks a candidate goes on blocking it. */
  lemma {:induction false} BlockedOn(r: seq<Cand>, n: nat, k: nat, c: Cand)
    requires n <= k <= |r| && Blocked(r[..n], c)
    ensures Blocked(r[..k], c)
    decreases k
  {
    if n < k {
      BlockedOn(r, n, k - 1, c);
      StaysBlocked(r[..k - 1], r[k - 1], c);
      assert r[..k] == r[..k - 1] + [r[k - 1]];
    }
  }

  /** Taking is greedy: in pool order, each candidate that is not blocked. */
  lemma {:induction false} TakeIsGreedy(pool: seq<Cand>, picks: seq<Cand>, target: int) returns (places: seq<nat>)
    ensures TakenFrom(pool, Take(pool, picks, target), |picks|, places, Blocked)
  {
    var r := Take(pool, picks, target);
    TakeGrows(pool, picks, target);
    assert r[..|picks|] == picks;
    if pool == [] || target <= 0 {
      places := [];
    } else if Blocked(picks, pool[0]) {
      var rest := TakeIsGreedy(pool[1..], picks, target);
      forall k, c | |picks| <= k <= |r| && Blocked(r[..|picks|], c) ensures Blocked(r[..k], c) {
        BlockedOn(r, |picks|, k, c);
      }
      TakenLater(pool, r, |picks|, rest, Blocked);
      places := Moved(rest);
    } else {
      var rest := TakeIsGreedy(pool[1..], picks + [pool[0]], target - 1);
      TakeGrows(pool[1..], picks + [pool[0]], target - 1);
      assert r[|picks|] == (picks + [pool[0]])[|picks|];
      TakenFirst(pool, r, |picks|, rest, Blocked);
      places := [0] + Moved(rest);
    }
  }

  // ---- the shares of the pools ---------------------------------------------

  /** r[from..to] came from the pool, no more than quota of it, and as much as
      that unless all of the pool is blocked. */
  ghost predicate Share<T>(r: seq<T>, from: nat, to: nat, pool: seq<T>, quota: int, blocked: (seq<T>, T) -> bool) {
    && from <= to <= |r| && (to - from <= quota || to == from)
    && (forall i :: from <= i < to ==> r[i] in pool)
    && (to - from < quota ==> forall c :: c in pool ==> blocked(r[..to], c))
  }

  lemma TakeShare(pool: seq<Cand>, picks: seq<Cand>, quota: int)
    ensures var r := Take(pool, picks, quota); Share(r, |picks|, |r|, pool, quota, Blocked)
  {
    var r := Take(pool, picks, quota);
    TakeGrows(pool, picks, quota);
    assert r[..|r|] == r;
    var places := TakeIsGreedy(pool, picks, quota);
    forall i | |picks| <= i < |r| ensures r[i] in pool {
      assert r[|picks| + (i - |picks|)] == pool[places[i - |picks|]];
    }
    if |r| < |picks| + quota {
      forall c | c in pool ensures Blocked(r, c) { TakeShort(pool, picks, quota, c); }
    }
  }

  lemma ShareLonger<T>(r: seq<T>, from: nat, to: nat, pool: seq<T>, quota: int, longer: seq<T>,
                       blocked: (seq<T>, T) -> bool)
    requires Share(r, from, to, pool, quota, blocked) && r <= longer
    ensures Share(longer, from, to, pool, quota, blocked)
  {
    assert longer[..to] == r[..to];
  }

  lemma QuotasAre(count: int)
    requires count > 0
    ensures Quota(count, 50) == (count + 1) / 2
    ensures Quota(count, 25) == (count + 3) / 4
    ensures Quota(count, 15) == (3 * count + 19) / 20
  {}

  /** r after it was taken from one pool is part of what comes of it. */
  lemma ShareKept(pool: seq<Cand>, picks: seq<Cand>, quota: int, all: seq<Cand>)
    requires Take(pool, picks, quota) <= all
    ensures Share(all, |picks|, |Take(pool, picks, quota)|, pool, quota, Blocked)
  {
    var r := Take(pool, picks, quota);
    TakeShare(pool, picks, quota);
    ShareLonger(r, |picks|, |r|, pool, quota, all, Blocked);
  }

  /** Half of the week's picks, rounded up, come from the tracks never played, a
      quarter from those played long ago and three twentieths from next to what
      is played, as far as they are not blocked; the rest fills up. */
  lemma QuotasKept(never: seq<Cand>, aged: seq<Cand>, adjacent: seq<Cand>, fill: seq<Cand>, count: int)
    returns (a: nat, b: nat, c: nat)
    requires count > 0
    ensures var r := Pick(never, aged, adjacent, fill, count);
            && Share(r, 0, a, never, (count + 1) / 2, Blocked)
            && Share(r, a, b, aged, (count + 3) / 4, Blocked)
            && Share(r, b, c, adjacent, (3 * count + 19) / 20, Blocked)
            && Share(r, c, |r|, fill, count - c, Blocked)
  {
    QuotasAre(count);
    var x, y, z := Quota(count, 50), Quota(count, 25), Quota(count, 15);
    var ra := Take(never, [], x);
    var rb := Take(aged, ra, y);
    var rc := Take(adjacent, rb, z);
    a, b, c := |ra|, |rb|, |rc|;
    TakeGrows(aged, ra, y);
    TakeGrows(adjacent, rb, z);
    TakeGrows(fill, rc, count - |rc|);
    var r := Take(fill, rc, count - |rc|);
    ShareKept(never, [], x, r);
    ShareKept(aged, ra, y, r);
    ShareKept(adjacent, rb, z, r);
    ShareKept(fill, rc, count - |rc|, r);
  }
}
