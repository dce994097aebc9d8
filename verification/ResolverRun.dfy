/** resolver_run as it runs, proved to give the manifest of Admission. */
module ResolverRun {
  import opened Prelude
  import opened Text
  import opened Sorting
  import opened Resolver
  import opened Admission

  function ItemOf(c: Cand): Item { Item(c.sha, c.size, c.priority, Members(c.buckets)) }

  function ItemsOf(cs: seq<Cand>): seq<Item> { seq(|cs|, i requires 0 <= i < |cs| => ItemOf(cs[i])) }

  const CAND_BEFORE: (Cand, Cand) -> bool := (a: Cand, b: Cand) => Before(ItemOf(a), ItemOf(b))

  lemma CandOrder(cs: seq<Cand>, m: Catalog)
    requires Collected(cs, m)
    ensures StrictOrder(CAND_BEFORE) && Comparable(cs, CAND_BEFORE)
  {
    BeforeIsStrictOrder();
    forall x: Cand ensures !CAND_BEFORE(x, x) { assert !BEFORE(ItemOf(x), ItemOf(x)); }
    forall x: Cand, y: Cand, z: Cand | CAND_BEFORE(x, y) && CAND_BEFORE(y, z) ensures CAND_BEFORE(x, z) {
      assert BEFORE(ItemOf(x), ItemOf(y)) && BEFORE(ItemOf(y), ItemOf(z));
    }
    forall i, j | 0 <= i < |cs| && 0 <= j < |cs| && cs[i] != cs[j]
      ensures CAND_BEFORE(cs[i], cs[j]) || CAND_BEFORE(cs[j], cs[i])
    {
      LessTotal(cs[i].sha, cs[j].sha);
    }
  }

  /** The sorted candidates are the ranked items. */
  lemma CandsRanked(cs: seq<Cand>, r: seq<Cand>, m: Catalog)
    requires Collected(cs, m) && SortedBy(r, CAND_BEFORE) && SameMembers(r, cs)
    ensures Ranked(ItemsOf(r), m)
  {
    var items := ItemsOf(r);
    forall i, j | 0 <= i < j < |items| ensures BEFORE(items[i], items[j]) { assert CAND_BEFORE(r[i], r[j]); }
    forall x ensures x in items <==> IsItem(m, x) {
      if x in items {
        var i :| 0 <= i < |r| && items[i] == x;
        assert r[i] in cs;
        var j :| 0 <= j < |cs| && cs[j] == r[i];
        assert CandFor(cs[j], m);
      }
      if IsItem(m, x) {
        var j :| 0 <= j < |cs| && cs[j].sha == x.sha;
        assert CandFor(cs[j], m) && cs[j] in r;
        TopUnique(x.buckets, x.priority, cs[j].priority);
        var i :| 0 <= i < |r| && r[i] == cs[j];
        assert items[i] == x;
      }
    }
  }

  /** Each pick has its track, in the same place. */
  ghost predicate Tracked(picks: seq<Item>, tracks: seq<Track>) {
    |tracks| == |picks| && forall i :: 0 <= i < |picks| ==> TrackOf(picks[i], tracks[i])
  }

  /** The admission walk. */
  method AdmitAll(cs: seq<Cand>, prev: set<Sha>, cfg: Config) returns (used: int, tracks: seq<Track>)
    requires cfg.hDen > 0 && forall c :: c in cs ==> Distinct(c.buckets)
    ensures used == Admit(ItemsOf(cs), prev, cfg).used
    ensures Tracked(Admit(ItemsOf(cs), prev, cfg).picks, tracks)
  {
    used, tracks := 0, [];
    LessIsStrictOrder();
    for i := 0 to |cs|
      invariant used == Admit(ItemsOf(cs)[..i], prev, cfg).used
      invariant Tracked(Admit(ItemsOf(cs)[..i], prev, cfg).picks, tracks)
    {
      var c := cs[i];
      assert ItemsOf(cs)[..i + 1][..i] == ItemsOf(cs)[..i] && ItemsOf(cs)[..i + 1][i] == ItemOf(c);
      if used + Effective(c.size, c.sha in prev, cfg) > cfg.cap && c.priority < PIN {
      } else {
        used := used + c.size;
        StringsComparable(c.buckets);
        var buckets := Sort(c.buckets, LESS);
        assert Members(buckets) == Members(c.buckets);
        tracks := tracks + [Track(c.sha, c.size, buckets)];
      }
    }
    assert ItemsOf(cs)[..|cs|] == ItemsOf(cs);
  }

  lemma StringsComparable(s: seq<string>)
    ensures Comparable(s, LESS)
  {
    forall i, j | 0 <= i < |s| && 0 <= j < |s| && s[i] != s[j] ensures LESS(s[i], s[j]) || LESS(s[j], s[i]) {
      LessTotal(s[i], s[j]);
    }
  }

  lemma {:induction false} PickShas(items: seq<Item>, prev: set<Sha>, cfg: Config)
    requires cfg.hDen > 0 && DistinctShas(items)
    ensures DistinctShas(Admit(items, prev, cfg).picks)
  {
    if items == [] {
    } else {
      var front, x := items[..|items| - 1], items[|items| - 1];
      PickShas(front, prev, cfg);
      PicksAreItems(front, prev, cfg);
      var t := Admit(front, prev, cfg);
      forall i | 0 <= i < |t.picks| ensures t.picks[i].sha != x.sha {
        assert t.picks[i] in front;
        var j :| 0 <= j < |front| && front[j] == t.picks[i];
        assert items[j] == t.picks[i];
      }
    }
  }

  lemma TracksBySha(picks: seq<Item>, tracks: seq<Track>)
    requires DistinctShas(picks) && Tracked(picks, tracks)
    ensures Comparable(tracks, BY_SHA) && Distinct(tracks)
    ensures forall t :: t in tracks <==> exists x :: x in picks && TrackOf(x, t)
  {
    forall i, j | 0 <= i < |tracks| && 0 <= j < |tracks| && i != j ensures tracks[i].sha != tracks[j].sha {
      assert TrackOf(picks[i], tracks[i]) && TrackOf(picks[j], tracks[j]);
    }
    forall i, j | 0 <= i < |tracks| && 0 <= j < |tracks| && tracks[i] != tracks[j]
      ensures BY_SHA(tracks[i], tracks[j]) || BY_SHA(tracks[j], tracks[i])
    {
      LessTotal(tracks[i].sha, tracks[j].sha);
    }
    forall t ensures t in tracks <==> exists x :: x in picks && TrackOf(x, t) {
      if t in tracks {
        var i :| 0 <= i < |tracks| && tracks[i] == t;
        assert picks[i] in picks && TrackOf(picks[i], t);
      }
      if x :| x in picks && TrackOf(x, t) {
        var i :| 0 <= i < |picks| && picks[i] == x;
        LessIsStrictOrder();
        SortedUnique(t.buckets, tracks[i].buckets, LESS) by {
          assert TrackOf(picks[i], tracks[i]);
          forall b ensures b in t.buckets <==> b in tracks[i].buckets {
            assert b in Members(t.buckets) <==> b in Members(tracks[i].buckets);
          }
        }
        assert t == tracks[i];
      }
    }
  }

  lemma AllAdmitted(t: Taken, walk: seq<Track>, tracks: seq<Track>)
    requires Tracked(t.picks, walk) && SameMembers(tracks, walk)
    ensures forall s :: s in t.Shas() ==> Admitted(tracks, s)
  {
    forall s | s in t.Shas() ensures Admitted(tracks, s) {
      var i :| 0 <= i < |t.picks| && t.picks[i].sha == s;
      assert TrackOf(t.picks[i], walk[i]) && walk[i] in tracks;
    }
  }

  /** The candidates of all rows. */
  method Collect(rows: seq<BucketRow>) returns (items: seq<Cand>)
    ensures Collected(items, CatalogOf(rows))
  {
    var found := new CandSet();
    for i := 0 to |rows|
      invariant fresh(found) && Collected(found.items, CatalogOf(rows[..i]))
    {
      assert rows[..i + 1][..i] == rows[..i];
      found.Add(rows[i], CatalogOf(rows[..i]));
    }
    assert rows[..|rows|] == rows;
    items := found.items;
  }

  /** The candidates in admission order. */
  method Rank(items: seq<Cand>, ghost m: Catalog) returns (cands: seq<Cand>)
    requires Collected(items, m)
    ensures Ranked(ItemsOf(cands), m) && forall c :: c in cands ==> Distinct(c.buckets)
  {
    CandOrder(items, m);
    cands := Sort(items, CAND_BEFORE);
    CandsRanked(items, cands, m);
    forall c | c in cands ensures Distinct(c.buckets) {
      var j :| 0 <= j < |items| && items[j] == c;
      assert CandFor(items[j], m);
    }
  }

  method Resolve(rows: seq<BucketRow>, prev: set<Sha>, cfg: Config) returns (tracks: seq<Track>, used: int)
    requires ValidConfig(cfg)
    ensures Resolved(CatalogOf(rows), prev, cfg, tracks, used)
  {
    ghost var m := CatalogOf(rows);
    var found := Collect(rows);
    var cands := Rank(found, m);
    var walk;
    used, walk := AdmitAll(cands, prev, cfg);
    ghost var items := ItemsOf(cands);
    RankedDistinct(items, m);
    PickShas(items, prev, cfg);
    TracksBySha(Admit(items, prev, cfg).picks, walk);
    LessIsStrictOrder();
    tracks := Sort(walk, BY_SHA);
    AllAdmitted(Admit(items, prev, cfg), walk, tracks);
  }

  // ---- exploration ---------------------------------------------------------

  /** cmp_ranked, for whatever rank the seed gives each sha. */
  function ByRank(rank: Sha -> int): (Sha, Sha) -> bool {
    (a, b) => rank(a) < rank(b) || (rank(a) == rank(b) && Less(a, b))
  }

  lemma ByRankOrder(rank: Sha -> int, s: seq<Sha>)
    ensures StrictOrder(ByRank(rank)) && Comparable(s, ByRank(rank))
    ensures forall x: Sha, y: Sha :: x != y ==> ByRank(rank)(x, y) || ByRank(rank)(y, x)
  {
    forall x: Sha ensures !ByRank(rank)(x, x) { LessIrreflexive(x); }
    forall x: Sha, y: Sha, z: Sha | ByRank(rank)(x, y) && ByRank(rank)(y, z) ensures ByRank(rank)(x, z) {
      if rank(x) == rank(y) == rank(z) { LessTransitive(x, y, z); }
    }
    forall x: Sha, y: Sha | x != y ensures ByRank(rank)(x, y) || ByRank(rank)(y, x) { LessTotal(x, y); }
  }

  /** The exploration branch: sort by rank, take the first count. */
  method Explore(candidates: seq<Sha>, count: nat, rank: Sha -> int) returns (picks: seq<Sha>)
    requires Distinct(candidates)
    ensures Members(picks) == Lowest(Members(candidates), count, ByRank(rank))
    ensures |picks| == if count < |candidates| then count else |candidates|
    ensures forall p, c :: p in picks && c in candidates && c !in picks ==>
              rank(p) < rank(c) || (rank(p) == rank(c) && Less(p, c))
  {
    ByRankOrder(rank, candidates);
    var sorted := Sort(candidates, ByRank(rank));
    SortedPrefixIsLowest(sorted, count, ByRank(rank));
    assert Members(sorted) == Members(candidates);
    var n := if count < |sorted| then count else |sorted|;
    picks := sorted[..n];
    forall i | 0 <= i < n ensures sorted[i] in picks { assert picks[i] == sorted[i]; }
    forall p, c | p in picks && c in candidates && c !in picks
      ensures rank(p) < rank(c) || (rank(p) == rank(c) && Less(p, c))
    {
      var i :| 0 <= i < n && picks[i] == p;
      var j :| 0 <= j < |sorted| && sorted[j] == c;
      assert j >= n;
      assert ByRank(rank)(sorted[i], sorted[j]);
    }
  }

  /** A new candidate changes the picks only at the margin, and so, read
      backwards, does a candidate that goes. */
  lemma ExploreMargin(candidates: set<Sha>, c: Sha, count: nat, rank: Sha -> int)
    requires c !in candidates
    ensures var was, now := Lowest(candidates, count, ByRank(rank)), Lowest(candidates + {c}, count, ByRank(rank));
            now <= was + {c} && |was - now| <= 1 && (c !in now ==> now == was)
  {
    ByRankOrder(rank, []);
    LowestMargin(candidates, c, count, ByRank(rank));
    var before := ByRank(rank);
    var was, now := Lowest(candidates, count, before), Lowest(candidates + {c}, count, before);
    if c !in now {
      forall x | x in was ensures x in now {
        assert Below(candidates + {c}, c, before) == Below(candidates, c, before);
        if before(c, x) {
          BelowGrows(candidates + {c}, c, x, before);
          SubsetSize(Below(candidates + {c}, c, before), Below(candidates, x, before));
        } else {
          assert Below(candidates + {c}, x, before) == Below(candidates, x, before);
        }
      }
    }
  }
}
