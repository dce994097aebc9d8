/** The second half of resolver_run: ranking, admission under the cap with
    hysteresis, and the manifest that feeds the next run. */
module Admission {
  import opened Text
  import opened Sorting
  import opened Resolver

  /** The effective cap in bytes, and the hysteresis ratio as a fraction. */
  datatype Config = Config(cap: int, hNum: nat, hDen: nat)

  ghost predicate ValidConfig(cfg: Config) { cfg.hDen > 0 && cfg.hNum <= cfg.hDen }

  /** A candidate, without the order its buckets were met in. */
  datatype Item = Item(sha: Sha, size: nat, priority: nat, buckets: set<string>)

  /** cmp_cand_priority: priority descending, then sha ascending. */
  predicate Before(a: Item, b: Item) {
    a.priority > b.priority || (a.priority == b.priority && Less(a.sha, b.sha))
  }

  const BEFORE: (Item, Item) -> bool := (a, b) => Before(a, b)

  lemma BeforeIsStrictOrder()
    ensures StrictOrder(BEFORE)
  {
    forall x: Item ensures !BEFORE(x, x) { LessIrreflexive(x.sha); }
    forall x: Item, y: Item, z: Item | BEFORE(x, y) && BEFORE(y, z) ensures BEFORE(x, z) {
      if x.priority == y.priority == z.priority { LessTransitive(x.sha, y.sha, z.sha); }
    }
  }

  ghost predicate IsItem(m: Catalog, x: Item) {
    x.sha in m && m[x.sha] == Entry(x.size, x.buckets) && IsTop(x.buckets, x.priority)
  }

  /** The catalog's tracks in admission order. */
  ghost predicate Ranked(items: seq<Item>, m: Catalog) {
    SortedBy(items, BEFORE) && forall x :: x in items <==> IsItem(m, x)
  }

  lemma RankedUnique(a: seq<Item>, b: seq<Item>, m: Catalog)
    requires Ranked(a, m) && Ranked(b, m)
    ensures a == b
  {
    BeforeIsStrictOrder();
    SortedUnique(a, b, BEFORE);
  }

  // ---- admission -----------------------------------------------------------

  /** The size the cap check sees: discounted for a track that was resident,
      surcharged for one that was not. */
  function Effective(size: nat, wasIn: bool, cfg: Config): int
    requires cfg.hDen > 0
  {
    if cfg.hNum == 0 then size
    else if wasIn then size * (cfg.hDen - cfg.hNum) / cfg.hDen
    else size * (cfg.hDen + cfg.hNum) / cfg.hDen
  }

  lemma EffectiveBounds(size: nat, cfg: Config)
    requires ValidConfig(cfg)
    ensures 0 <= Effective(size, true, cfg) <= size <= Effective(size, false, cfg)
  {
    var n, d := cfg.hNum, cfg.hDen;
    if n > 0 {
      MulLe(d - n, d, size);
      MulLe(d, d + n, size);
      DivAtMost((d - n) * size, size, d);
      DivAtLeast((d + n) * size, size, d);
      assert size * (d - n) == (d - n) * size && size * (d + n) == (d + n) * size;
    }
  }

  lemma MulLe(a: nat, b: nat, k: nat)
    requires a <= b
    ensures 0 <= a * k <= b * k
  {
    assert b * k == a * k + (b - a) * k;
  }

  lemma DivAtMost(a: nat, q: nat, d: nat)
    requires d > 0 && a <= d * q
    ensures 0 <= a / d <= q
  {
    if q + 1 <= a / d { MulLe(q + 1, a / d, d); }
  }

  lemma DivAtLeast(a: nat, q: nat, d: nat)
    requires d > 0 && a >= d * q
    ensures a / d >= q
  {
    if a / d + 1 <= q { MulLe(a / d + 1, q, d); }
  }

  datatype Taken = Taken(used: int, picks: seq<Item>) {
    function Shas(): set<Sha> { set x | x in picks :: x.sha }
  }

  /** The walk over the ranked candidates: what does not fit is passed over
      unless it is a pin, and what is taken is charged its true size. */
  function Admit(items: seq<Item>, prev: set<Sha>, cfg: Config): Taken
    requires cfg.hDen > 0
  {
    if items == [] then Taken(0, []) else
    var t, x := Admit(items[..|items| - 1], prev, cfg), items[|items| - 1];
    if t.used + Effective(x.size, x.sha in prev, cfg) > cfg.cap && x.priority < PIN then t
    else Taken(t.used + x.size, t.picks + [x])
  }

  ghost predicate DistinctShas(items: seq<Item>) {
    forall i, j :: 0 <= i < j < |items| ==> items[i].sha != items[j].sha
  }

  lemma RankedDistinct(items: seq<Item>, m: Catalog)
    requires Ranked(items, m)
    ensures DistinctShas(items)
  {
    forall i, j | 0 <= i < j < |items| ensures items[i].sha != items[j].sha {
      assert items[i] in items && items[j] in items && BEFORE(items[i], items[j]);
      if items[i].sha == items[j].sha {
        TopUnique(items[i].buckets, items[i].priority, items[j].priority);
        LessIrreflexive(items[i].sha);
      }
    }
  }

  lemma {:induction false} PicksAreItems(items: seq<Item>, prev: set<Sha>, cfg: Config)
    requires cfg.hDen > 0
    ensures forall x :: x in Admit(items, prev, cfg).picks ==> x in items
  {
    if items == [] {
    } else {
      PicksAreItems(items[..|items| - 1], prev, cfg);
    }
  }

  /** Taken or not, an item's fate shows in the shas taken. */
  lemma TakenShas(items: seq<Item>, prev: set<Sha>, cfg: Config)
    requires cfg.hDen > 0 && items != [] && DistinctShas(items)
    ensures var t, u, x := Admit(items[..|items| - 1], prev, cfg), Admit(items, prev, cfg), items[|items| - 1];
            && x.sha !in t.Shas()
            && u.Shas() == if u == t then t.Shas() else t.Shas() + {x.sha}
    ensures var t, u, x := Admit(items[..|items| - 1], prev, cfg), Admit(items, prev, cfg), items[|items| - 1];
            (x.sha in u.Shas() <==> u == Taken(t.used + x.size, t.picks + [x])) && (x.sha !in u.Shas() <==> u == t)
  {
    var front, x := items[..|items| - 1], items[|items| - 1];
    PicksAreItems(front, prev, cfg);
    var t := Admit(front, prev, cfg);
    forall y | y in t.picks ensures y.sha != x.sha {
      var i :| 0 <= i < |front| && front[i] == y;
      assert items[i] == y;
    }
  }

  /** Helping what was taken and hindering what was not changes nothing. */
  lemma {:induction false} AdmitStable(items: seq<Item>, p: set<Sha>, q: set<Sha>, cfg: Config, all: set<Sha>)
    requires ValidConfig(cfg) && DistinctShas(items)
    requires forall x :: x in items ==> (x.sha in all <==> x.sha in Admit(items, p, cfg).Shas())
    requires forall x :: x in items && x.sha in all && x.sha in p ==> x.sha in q
    requires forall x :: x in items && x.sha in q ==> x.sha in all
    ensures Admit(items, q, cfg) == Admit(items, p, cfg)
  {
    if items == [] {
    } else {
      var front, x := items[..|items| - 1], items[|items| - 1];
      TakenShas(items, p, cfg);
      assert forall y :: y in front ==> y in items && y.sha != x.sha by {
        forall y | y in front ensures y in items && y.sha != x.sha {
          var i :| 0 <= i < |front| && front[i] == y;
          assert items[i] == y;
        }
      }
      AdmitStable(front, p, q, cfg, all);
      assert x in items;
      EffectiveBounds(x.size, cfg);
    }
  }

  // ---- the manifest and the next run ---------------------------------------

  /** write_manifest_to_db drops the tracks that are unsynced or blacklisted. */
  function Manifest(t: Taken, dropped: set<Sha>): set<Sha> { t.Shas() - dropped }

  lemma NextRun(items: seq<Item>, prev: set<Sha>, cfg: Config, dropped: set<Sha>)
    requires ValidConfig(cfg) && DistinctShas(items) && prev !! dropped
    ensures Admit(items, Manifest(Admit(items, prev, cfg), dropped), cfg) == Admit(items, prev, cfg)
  {
    var t := Admit(items, prev, cfg);
    AdmitStable(items, prev, Manifest(t, dropped), cfg, t.Shas());
  }

  /** Resolving is a fixpoint of itself: at once when nothing is dropped, and
      from the second run on when the same tracks are dropped every time. */
  lemma ResolveFixpoint(items: seq<Item>, prev: set<Sha>, cfg: Config, dropped: set<Sha>)
    requires ValidConfig(cfg) && DistinctShas(items)
    ensures var first := Admit(items, prev, cfg);
            var second := Admit(items, Manifest(first, dropped), cfg);
            var third := Admit(items, Manifest(second, dropped), cfg);
            third == second && (dropped == {} ==> second == first)
  {
    NextRun(items, Manifest(Admit(items, prev, cfg), dropped), cfg, dropped);
    if dropped == {} { NextRun(items, prev, cfg, {}); }
  }

  /** The i-th candidate was admitted, is dropped from the manifest, and fitted
      only with the discount that costs it. */
  ghost predicate NeededDiscount(items: seq<Item>, prev: set<Sha>, cfg: Config, taken: set<Sha>, dropped: set<Sha>,
                                 i: int)
    requires cfg.hDen > 0
  {
    && 0 <= i < |items| && items[i].sha in taken && items[i].sha in dropped && items[i].priority < PIN
    && Admit(items[..i], prev, cfg).used + Effective(items[i].size, false, cfg) > cfg.cap
  }

  /** Two walks that end alike were alike one item earlier. */
  lemma SameBefore(items: seq<Item>, p: set<Sha>, q: set<Sha>, cfg: Config)
    requires cfg.hDen > 0 && items != [] && DistinctShas(items) && Admit(items, p, cfg) == Admit(items, q, cfg)
    ensures Admit(items[..|items| - 1], p, cfg) == Admit(items[..|items| - 1], q, cfg)
  {
    var front, x, u := items[..|items| - 1], items[|items| - 1], Admit(items, p, cfg);
    TakenShas(items, p, cfg);
    TakenShas(items, q, cfg);
    if x.sha in u.Shas() {
      assert u.picks[..|u.picks| - 1] == Admit(front, p, cfg).picks;
      assert u.picks[..|u.picks| - 1] == Admit(front, q, cfg).picks;
    }
  }

  /** The last candidate's turn, when the walks were alike so far. */
  lemma NextTurn(items: seq<Item>, prev: set<Sha>, next: set<Sha>, cfg: Config, taken: set<Sha>, dropped: set<Sha>)
    requires ValidConfig(cfg) && items != [] && DistinctShas(items)
    requires Admit(items[..|items| - 1], prev, cfg) == Admit(items[..|items| - 1], next, cfg)
    requires var x := items[|items| - 1];
             && (x.sha in taken <==> x.sha in Admit(items, prev, cfg).Shas())
             && (x.sha in next <==> x.sha in taken && x.sha !in dropped)
    ensures Admit(items, prev, cfg) == Admit(items, next, cfg) <==>
            !NeededDiscount(items, prev, cfg, taken, dropped, |items| - 1)
  {
    var x := items[|items| - 1];
    TakenShas(items, prev, cfg);
    TakenShas(items, next, cfg);
    EffectiveBounds(x.size, cfg);
  }

  lemma FrontDiscounts(items: seq<Item>, prev: set<Sha>, cfg: Config, taken: set<Sha>, dropped: set<Sha>)
    requires cfg.hDen > 0 && items != []
    ensures var n := |items| - 1;
            (forall i :: !NeededDiscount(items, prev, cfg, taken, dropped, i)) <==>
            (forall i :: !NeededDiscount(items[..n], prev, cfg, taken, dropped, i))
            && !NeededDiscount(items, prev, cfg, taken, dropped, n)
  {
    var n := |items| - 1;
    var front := items[..n];
    forall i | 0 <= i < n
      ensures NeededDiscount(front, prev, cfg, taken, dropped, i) <==>
              NeededDiscount(items, prev, cfg, taken, dropped, i)
    {
      assert front[..i] == items[..i];
    }
  }

  lemma {:induction false} NextRunPrefix(items: seq<Item>, prev: set<Sha>, next: set<Sha>, cfg: Config, taken: set<Sha>,
                                         dropped: set<Sha>)
    requires ValidConfig(cfg) && DistinctShas(items)
    requires forall x :: x in items ==> (x.sha in taken <==> x.sha in Admit(items, prev, cfg).Shas())
    requires forall x :: x in items ==> (x.sha in next <==> x.sha in taken && x.sha !in dropped)
    ensures Admit(items, prev, cfg) == Admit(items, next, cfg) <==>
            forall i :: !NeededDiscount(items, prev, cfg, taken, dropped, i)
  {
    if items == [] {
    } else {
      var n := |items| - 1;
      var front := items[..n];
      FrontShas(items, prev, cfg, taken);
      NextRunPrefix(front, prev, next, cfg, taken, dropped);
      assert items[n] in items;
      FrontDiscounts(items, prev, cfg, taken, dropped);
      if Admit(items, prev, cfg) == Admit(items, next, cfg) { SameBefore(items, prev, next, cfg); }
      if Admit(front, prev, cfg) == Admit(front, next, cfg) { NextTurn(items, prev, next, cfg, taken, dropped); }
    }
  }

  /** The shas taken say the same of all items but the last. */
  lemma FrontShas(items: seq<Item>, prev: set<Sha>, cfg: Config, taken: set<Sha>)
    requires cfg.hDen > 0 && items != [] && DistinctShas(items)
    requires forall x :: x in items ==> (x.sha in taken <==> x.sha in Admit(items, prev, cfg).Shas())
    ensures var front := items[..|items| - 1];
            forall y :: y in front ==> y in items && (y.sha in taken <==> y.sha in Admit(front, prev, cfg).Shas())
  {
    var front := items[..|items| - 1];
    TakenShas(items, prev, cfg);
    forall y | y in front ensures y in items && y.sha != items[|items| - 1].sha {
      var i :| 0 <= i < |front| && front[i] == y;
      assert items[i] == y;
    }
  }

  /** The first repetition gives the same result if and only if no dropped track
      needed the discount. */
  lemma NextRunExactly(items: seq<Item>, prev: set<Sha>, cfg: Config, dropped: set<Sha>)
    requires ValidConfig(cfg) && DistinctShas(items)
    ensures var first := Admit(items, prev, cfg);
            Admit(items, Manifest(first, dropped), cfg) == first <==>
            forall i :: !NeededDiscount(items, prev, cfg, first.Shas(), dropped, i)
  {
    var first := Admit(items, prev, cfg);
    NextRunPrefix(items, prev, Manifest(first, dropped), cfg, first.Shas(), dropped);
  }

  /** The first run can differ: a dropped track loses its discount. */
  lemma FirstRunCanDiffer()
    ensures var items, cfg := [Item("s", 10, 8, {"loved"})], Config(9, 1, 10);
            var first := Admit(items, {"s"}, cfg);
            Admit(items, Manifest(first, {"s"}), cfg) != first
  {
    var items, cfg := [Item("s", 10, 8, {"loved"})], Config(9, 1, 10);
    assert items[..0] == [];
    assert Admit(items, {"s"}, cfg).used == 10 && Admit(items, {}, cfg).used == 0;
  }

  // ---- the cap -------------------------------------------------------------

  function PinTotal(items: seq<Item>): nat {
    if items == [] then 0 else
    PinTotal(items[..|items| - 1]) + if items[|items| - 1].priority >= PIN then items[|items| - 1].size else 0
  }

  function Total(items: seq<Item>): nat {
    if items == [] then 0 else Total(items[..|items| - 1]) + items[|items| - 1].size
  }

  ghost predicate PinsFirst(items: seq<Item>) {
    forall i, j :: 0 <= i < j < |items| && items[j].priority >= PIN ==> items[i].priority >= PIN
  }

  /** x is a track that was resident and fitted only with its discount. */
  ghost predicate LastDiscounted(t: Taken, x: Item, prev: set<Sha>, cfg: Config)
    requires cfg.hDen > 0
  {
    && x in t.picks && x.sha in prev && x.priority < PIN
    && t.used - x.size + Effective(x.size, true, cfg) <= cfg.cap
  }

  ghost predicate WithinCap(items: seq<Item>, t: Taken, prev: set<Sha>, cfg: Config)
    requires cfg.hDen > 0
  {
    var pins := PinTotal(items);
    && (forall x :: x in items && x.priority >= PIN ==> x in t.picks)
    && (pins > cfg.cap ==> t.used == pins && forall x :: x in t.picks ==> x.priority >= PIN)
    && (pins <= cfg.cap ==> t.used <= cfg.cap || exists x :: LastDiscounted(t, x, prev, cfg))
  }

  /** Pins are always taken. If they alone exceed the cap nothing else is;
      otherwise the cap is exceeded by at most one resident track's discount. */
  lemma {:induction false} CapBound(items: seq<Item>, prev: set<Sha>, cfg: Config)
    requires ValidConfig(cfg) && PinsFirst(items)
    ensures Admit(items, prev, cfg).used == Total(Admit(items, prev, cfg).picks)
    ensures WithinCap(items, Admit(items, prev, cfg), prev, cfg)
  {
    UsedIsTotal(items, prev, cfg);
    if items == [] {
    } else if items[|items| - 1].priority >= PIN {
      AllPins(items, prev, cfg);
    } else {
      CapBound(items[..|items| - 1], prev, cfg);
      CapStep(items, Admit(items[..|items| - 1], prev, cfg), Admit(items, prev, cfg), prev, cfg);
    }
  }

  lemma {:induction false} UsedIsTotal(items: seq<Item>, prev: set<Sha>, cfg: Config)
    requires cfg.hDen > 0
    ensures Admit(items, prev, cfg).used == Total(Admit(items, prev, cfg).picks)
  {
    if items == [] {
    } else {
      var t, u := Admit(items[..|items| - 1], prev, cfg), Admit(items, prev, cfg);
      UsedIsTotal(items[..|items| - 1], prev, cfg);
      if u != t { assert u.picks[..|u.picks| - 1] == t.picks; }
    }
  }

  lemma CapStep(items: seq<Item>, t: Taken, u: Taken, prev: set<Sha>, cfg: Config)
    requires ValidConfig(cfg) && items != []
    requires WithinCap(items[..|items| - 1], t, prev, cfg)
    requires var x := items[|items| - 1];
             && x.priority < PIN
             && u == if t.used + Effective(x.size, x.sha in prev, cfg) > cfg.cap then t
                     else Taken(t.used + x.size, t.picks + [x])
    ensures WithinCap(items, u, prev, cfg)
  {
    var front, x := items[..|items| - 1], items[|items| - 1];
    assert items == front + [x];
    EffectiveBounds(x.size, cfg);
    if u != t && u.used > cfg.cap {
      assert LastDiscounted(u, x, prev, cfg);
    }
  }

  lemma {:induction false} AllPins(items: seq<Item>, prev: set<Sha>, cfg: Config)
    requires cfg.hDen > 0 && forall i :: 0 <= i < |items| ==> items[i].priority >= PIN
    ensures Admit(items, prev, cfg) == Taken(PinTotal(items), items)
  {
    if items == [] {
    } else {
      AllPins(items[..|items| - 1], prev, cfg);
      assert items[..|items| - 1] + [items[|items| - 1]] == items;
    }
  }

  lemma RankedPinsFirst(items: seq<Item>, m: Catalog)
    requires Ranked(items, m)
    ensures PinsFirst(items)
  {
    forall i, j | 0 <= i < j < |items| && items[j].priority >= PIN ensures items[i].priority >= PIN {
      assert BEFORE(items[i], items[j]);
    }
  }

  // ---- resolver_run --------------------------------------------------------

  datatype Track = Track(sha: Sha, size: nat, buckets: seq<string>)

  const LESS: (string, string) -> bool := (a, b) => Less(a, b)
  const BY_SHA: (Track, Track) -> bool := (a: Track, b: Track) => Less(a.sha, b.sha)

  lemma LessIsStrictOrder()
    ensures StrictOrder(LESS) && StrictOrder(BY_SHA)
  {
    forall x: string ensures !LESS(x, x) { LessIrreflexive(x); }
    forall x: string, y: string, z: string | LESS(x, y) && LESS(y, z) ensures LESS(x, z) { LessTransitive(x, y, z); }
    forall x: Track ensures !BY_SHA(x, x) { LessIrreflexive(x.sha); }
    forall x: Track, y: Track, z: Track | BY_SHA(x, y) && BY_SHA(y, z) ensures BY_SHA(x, z) {
      LessTransitive(x.sha, y.sha, z.sha);
    }
  }

  ghost predicate TrackOf(x: Item, t: Track) {
    t.sha == x.sha && t.size == x.size && SortedBy(t.buckets, LESS) && Members(t.buckets) == x.buckets
  }

  ghost predicate Admitted(tracks: seq<Track>, s: Sha) { exists i :: 0 <= i < |tracks| && tracks[i].sha == s }

  /** The manifest that a catalog, a previous manifest and a configuration
      determine: residents by sha, each with its buckets by name. */
  ghost predicate Resolved(m: Catalog, prev: set<Sha>, cfg: Config, tracks: seq<Track>, used: int)
    requires cfg.hDen > 0
  {
    && SortedBy(tracks, BY_SHA)
    && exists items :: Ranked(items, m) && used == Admit(items, prev, cfg).used
         && (forall t :: t in tracks <==> exists x :: x in Admit(items, prev, cfg).picks && TrackOf(x, t))
         && forall s :: s in Admit(items, prev, cfg).Shas() ==> Admitted(tracks, s)
  }

  /** Bucket order, row order and the way of sorting do not show. */
  lemma ResolvedOnce(a: seq<BucketRow>, b: seq<BucketRow>, prev: set<Sha>, cfg: Config,
                     s: seq<Track>, t: seq<Track>, u: int, v: int)
    requires ValidConfig(cfg) && SizesAgree(a) && SameMembers(a, b)
    requires Resolved(CatalogOf(a), prev, cfg, s, u) && Resolved(CatalogOf(b), prev, cfg, t, v)
    ensures s == t && u == v
  {
    CatalogOrderFree(a, b);
    var m := CatalogOf(a);
    var i :| Ranked(i, m) && u == Admit(i, prev, cfg).used
      && forall x :: x in s <==> exists y :: y in Admit(i, prev, cfg).picks && TrackOf(y, x);
    var j :| Ranked(j, m) && v == Admit(j, prev, cfg).used
      && forall x :: x in t <==> exists y :: y in Admit(j, prev, cfg).picks && TrackOf(y, x);
    RankedUnique(i, j, m);
    LessIsStrictOrder();
    SortedUnique(s, t, BY_SHA);
  }
}
