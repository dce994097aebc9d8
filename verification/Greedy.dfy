/** What a manifest is, told from the bucket rows: the greedy walk through the
    tracks in bucket order. */
module Greedy {
  import opened Text
  import opened Resolver
  import opened Admission

  /** Where a bucket stands when the buckets are served. */
  function Place(bucket: string): nat {
    if bucket == "manual_pins" then 0
    else if bucket == "loved" then 1
    else if bucket == "top_played" then 2
    else if bucket == "recent_plays" then 3
    else if bucket == "recent_adds" then 4
    else if bucket == "exploration" then 5
    else 6
  }

  /** The numbers of the resolver say nothing else. */
  lemma PlaceOfPriority(a: string, b: string)
    ensures Priority(a) > Priority(b) <==> Place(a) < Place(b)
    ensures Priority(a) >= PIN <==> a == "manual_pins"
  {}

  ghost predicate Listed(rows: seq<BucketRow>, s: Sha, bucket: string) {
    exists i :: 0 <= i < |rows| && rows[i].sha == s && rows[i].bucket == bucket
  }

  ghost predicate Pinned(rows: seq<BucketRow>, s: Sha) { Listed(rows, s, "manual_pins") }

  /** The first bucket that lists the track. */
  ghost predicate Best(rows: seq<BucketRow>, s: Sha, bucket: string) {
    Listed(rows, s, bucket) && forall b :: Listed(rows, s, b) ==> Place(bucket) <= Place(b)
  }

  /** s is served before t: by its best bucket, then by name. */
  ghost predicate Ahead(rows: seq<BucketRow>, s: Sha, t: Sha) {
    exists a, b :: Best(rows, s, a) && Best(rows, t, b)
                   && (Place(a) < Place(b) || (Place(a) == Place(b) && Less(s, t)))
  }

  /** What a track must fit with: its size less the ratio if it was resident,
      plus the ratio if not. */
  function Charge(size: nat, wasIn: bool, cfg: Config): int
    requires cfg.hDen > 0
  {
    if cfg.hNum == 0 then size
    else if wasIn then size * (cfg.hDen - cfg.hNum) / cfg.hDen
    else size * (cfg.hDen + cfg.hNum) / cfg.hDen
  }

  function Bytes(order: seq<Item>): nat {
    if order == [] then 0 else order[0].size + Bytes(order[1..])
  }

  lemma {:induction false} BytesSnoc(order: seq<Item>, x: Item)
    ensures Bytes(order + [x]) == Bytes(order) + x.size
  {
    if order == [] {
      assert [x][1..] == [];
    } else {
      assert (order + [x])[1..] == order[1..] + [x];
      BytesSnoc(order[1..], x);
    }
  }

  lemma {:induction false} BytesGrow(order: seq<Item>, j: nat, k: nat)
    requires j <= k <= |order|
    ensures Bytes(order[..j]) <= Bytes(order[..k])
    decreases k
  {
    if j < k {
      BytesGrow(order, j, k - 1);
      assert order[..k] == order[..k - 1] + [order[k - 1]];
      BytesSnoc(order[..k - 1], order[k - 1]);
    }
  }

  /** Who is served before whom, who is pinned, the cap and what each track must
      fit with. */
  datatype Turns = Turns(ahead: (Sha, Sha) -> bool, pinned: Sha -> bool, cap: int, charge: Item -> int)

  /** Everything taken was served in turn, and was a pin or fitted what had been
      taken before it. */
  ghost predicate Served(rule: Turns, order: seq<Item>) {
    && (forall i, j :: 0 <= i < j < |order| ==> rule.ahead(order[i].sha, order[j].sha))
    && (forall k :: 0 <= k < |order| ==>
          rule.pinned(order[k].sha) || Bytes(order[..k]) + rule.charge(order[k]) <= rule.cap)
  }

  /** A track whose turn came after k others was no pin and did not fit. */
  ghost predicate TurnedDown(rule: Turns, order: seq<Item>, s: Sha, bytes: int, k: nat) {
    && !rule.pinned(s) && k <= |order|
    && (forall i :: 0 <= i < k ==> rule.ahead(order[i].sha, s))
    && (forall i :: k <= i < |order| ==> rule.ahead(s, order[i].sha))
    && Bytes(order[..k]) + bytes > rule.cap
  }

  ghost predicate LeftOut(rule: Turns, order: seq<Item>, s: Sha, bytes: int) {
    exists k: nat :: TurnedDown(rule, order, s, bytes, k)
  }

  ghost predicate Decided(rule: Turns, order: seq<Item>, x: Item) {
    x in order || LeftOut(rule, order, x.sha, rule.charge(x))
  }

  // ---- the walk is that ----------------------------------------------------

  lemma ServeOne(rule: Turns, order: seq<Item>, x: Item)
    requires Served(rule, order) && forall p :: p in order ==> rule.ahead(p.sha, x.sha)
    requires rule.pinned(x.sha) || Bytes(order) + rule.charge(x) <= rule.cap
    ensures Served(rule, order + [x])
  {
    var longer := order + [x];
    assert order[..|order|] == order;
    forall k | 0 <= k < |longer|
      ensures rule.pinned(longer[k].sha) || Bytes(longer[..k]) + rule.charge(longer[k]) <= rule.cap
    {
      assert longer[..k] == order[..k];
    }
    forall i, j | 0 <= i < j < |longer| ensures rule.ahead(longer[i].sha, longer[j].sha) {
      assert order[i] in order;
    }
  }

  lemma StillDecided(rule: Turns, order: seq<Item>, y: Item, x: Item)
    requires Decided(rule, order, y) && rule.ahead(y.sha, x.sha)
    ensures Decided(rule, order + [x], y)
  {
    if y !in order {
      var k: nat :| TurnedDown(rule, order, y.sha, rule.charge(y), k);
      assert (order + [x])[..k] == order[..k];
      assert TurnedDown(rule, order + [x], y.sha, rule.charge(y), k);
    }
  }

  /** The walk through these items took these. */
  ghost predicate Walked(rule: Turns, items: seq<Item>, t: Taken) {
    && t.used == Bytes(t.picks) && Served(rule, t.picks)
    && (forall x :: x in t.picks ==> x in items)
    && (forall x :: x in items ==> Decided(rule, t.picks, x))
  }

  lemma TakenOn(rule: Turns, front: seq<Item>, x: Item, t: Taken)
    requires Walked(rule, front, t) && forall y :: y in front ==> rule.ahead(y.sha, x.sha)
    requires rule.pinned(x.sha) || t.used + rule.charge(x) <= rule.cap
    ensures Walked(rule, front + [x], Taken(t.used + x.size, t.picks + [x]))
  {
    ServeOne(rule, t.picks, x);
    BytesSnoc(t.picks, x);
    forall y | y in front ensures Decided(rule, t.picks + [x], y) { StillDecided(rule, t.picks, y, x); }
  }

  lemma PassedOver(rule: Turns, front: seq<Item>, x: Item, t: Taken)
    requires Walked(rule, front, t) && forall y :: y in front ==> rule.ahead(y.sha, x.sha)
    requires !rule.pinned(x.sha) && t.used + rule.charge(x) > rule.cap
    ensures Walked(rule, front + [x], t)
  {
    assert t.picks[..|t.picks|] == t.picks;
    assert TurnedDown(rule, t.picks, x.sha, rule.charge(x), |t.picks|) by {
      forall i | 0 <= i < |t.picks| ensures rule.ahead(t.picks[i].sha, x.sha) { assert t.picks[i] in t.picks; }
    }
  }

  /** rule says of the items what the admission walk looks at. */
  ghost predicate Agrees(rule: Turns, items: seq<Item>, prev: set<Sha>, cfg: Config)
    requires cfg.hDen > 0
  {
    && rule.cap == cfg.cap
    && (forall i, j :: 0 <= i < j < |items| ==> rule.ahead(items[i].sha, items[j].sha))
    && (forall x :: x in items ==>
          (rule.pinned(x.sha) <==> x.priority >= PIN) && rule.charge(x) == Effective(x.size, x.sha in prev, cfg))
  }

  lemma AgreesFront(rule: Turns, items: seq<Item>, prev: set<Sha>, cfg: Config)
    requires cfg.hDen > 0 && items != [] && Agrees(rule, items, prev, cfg)
    ensures Agrees(rule, items[..|items| - 1], prev, cfg)
    ensures forall y :: y in items[..|items| - 1] ==> rule.ahead(y.sha, items[|items| - 1].sha)
  {
    var front := items[..|items| - 1];
    forall i, j | 0 <= i < j < |front| ensures rule.ahead(front[i].sha, front[j].sha) {
      assert front[i] == items[i] && front[j] == items[j];
    }
    forall y | y in front ensures y in items && rule.ahead(y.sha, items[|items| - 1].sha) {
      var i :| 0 <= i < |front| && front[i] == y;
      assert items[i] == y;
    }
  }

  lemma {:induction false} AdmitIsGreedy(rule: Turns, items: seq<Item>, prev: set<Sha>, cfg: Config)
    requires cfg.hDen > 0 && Agrees(rule, items, prev, cfg)
    ensures Walked(rule, items, Admit(items, prev, cfg))
  {
    if items == [] {
    } else {
      var front, x := items[..|items| - 1], items[|items| - 1];
      AgreesFront(rule, items, prev, cfg);
      AdmitIsGreedy(rule, front, prev, cfg);
      assert items == front + [x] && x in items;
      var t := Admit(front, prev, cfg);
      if t.used + rule.charge(x) > rule.cap && !rule.pinned(x.sha) {
        PassedOver(rule, front, x, t);
      } else {
        TakenOn(rule, front, x, t);
      }
    }
  }

  // ---- in terms of the rows ------------------------------------------------

  ghost function TurnsOf(rows: seq<BucketRow>, prev: set<Sha>, cfg: Config): Turns
    requires cfg.hDen > 0
  {
    Turns((s, t) => Ahead(rows, s, t), s => Pinned(rows, s), cfg.cap,
          (x: Item) => Charge(x.size, x.sha in prev, cfg))
  }

  lemma ListedIn(rows: seq<BucketRow>, x: Item, b: string)
    requires SizesAgree(rows) && IsItem(CatalogOf(rows), x)
    ensures Listed(rows, x.sha, b) <==> b in x.buckets
  {
    CatalogSpec(rows, x.sha);
    if Listed(rows, x.sha, b) {
      var i :| 0 <= i < |rows| && rows[i].sha == x.sha && rows[i].bucket == b;
      var b0 :| b0 in x.buckets;
      SameSize(rows, rows[i], BucketRow(x.sha, x.size, b0));
      assert rows[i] == BucketRow(x.sha, x.size, b);
    }
  }

  lemma ItemBest(rows: seq<BucketRow>, x: Item) returns (b: string)
    requires SizesAgree(rows) && IsItem(CatalogOf(rows), x)
    ensures Best(rows, x.sha, b) && Priority(b) == x.priority
    ensures Pinned(rows, x.sha) <==> x.priority >= PIN
  {
    CatalogSpec(rows, x.sha);
    b :| b in x.buckets && Priority(b) == x.priority;
    ListedIn(rows, x, b);
    forall c | Listed(rows, x.sha, c) ensures Place(b) <= Place(c) {
      ListedIn(rows, x, c);
      PlaceOfPriority(c, b);
    }
    ListedIn(rows, x, "manual_pins");
    PlaceOfPriority(b, b);
  }

  lemma BeforeIsAhead(rows: seq<BucketRow>, x: Item, y: Item)
    requires SizesAgree(rows) && IsItem(CatalogOf(rows), x) && IsItem(CatalogOf(rows), y) && Before(x, y)
    ensures Ahead(rows, x.sha, y.sha)
  {
    var a := ItemBest(rows, x);
    var b := ItemBest(rows, y);
    PlaceOfPriority(a, b);
    PlaceOfPriority(b, a);
  }

  lemma RankedAgrees(rows: seq<BucketRow>, items: seq<Item>, prev: set<Sha>, cfg: Config)
    requires cfg.hDen > 0 && SizesAgree(rows) && Ranked(items, CatalogOf(rows))
    ensures Agrees(TurnsOf(rows, prev, cfg), items, prev, cfg)
  {
    forall i, j | 0 <= i < j < |items| ensures Ahead(rows, items[i].sha, items[j].sha) {
      assert items[i] in items && items[j] in items && BEFORE(items[i], items[j]);
      BeforeIsAhead(rows, items[i], items[j]);
    }
    forall x | x in items ensures Pinned(rows, x.sha) <==> x.priority >= PIN { var b := ItemBest(rows, x); }
  }

  ghost predicate OfItem(order: seq<Item>, t: Track) { exists x :: x in order && TrackOf(x, t) }

  /** The order in which the tracks of a manifest were taken. */
  ghost predicate TakenAs(tracks: seq<Track>, order: seq<Item>) {
    && (forall t :: t in tracks <==> OfItem(order, t))
    && (forall x :: x in order ==> Admitted(tracks, x.sha))
  }

  lemma RowItem(rows: seq<BucketRow>, items: seq<Item>, r: BucketRow) returns (x: Item)
    requires SizesAgree(rows) && Ranked(items, CatalogOf(rows)) && r in rows
    ensures x in items && x.sha == r.sha && x.size == r.size
  {
    var m := CatalogOf(rows);
    CatalogSpec(rows, r.sha);
    var b :| b in m[r.sha].buckets;
    SameSize(rows, r, BucketRow(r.sha, m[r.sha].size, b));
    var p := HasTop(m[r.sha].buckets);
    x := Item(r.sha, r.size, p, m[r.sha].buckets);
    assert IsItem(m, x);
  }

  lemma {:induction false} HasTop(buckets: set<string>) returns (p: nat)
    requires buckets != {}
    ensures IsTop(buckets, p)
    decreases |buckets|
  {
    var b :| b in buckets;
    if buckets == {b} {
      p := Priority(b);
    } else {
      p := HasTop(buckets - {b});
      TopOfMore(buckets - {b}, p, b);
      assert buckets - {b} + {b} == buckets;
      if Priority(b) > p { p := Priority(b); }
    }
  }

  lemma ItemSize(rows: seq<BucketRow>, x: Item, r: BucketRow)
    requires SizesAgree(rows) && IsItem(CatalogOf(rows), x) && r in rows && r.sha == x.sha
    ensures r.size == x.size
  {
    CatalogSpec(rows, x.sha);
    var b :| b in x.buckets;
    SameSize(rows, r, BucketRow(x.sha, x.size, b));
  }

  /** What was left out, and how large the rest is, row by row. */
  lemma RowsDecided(rows: seq<BucketRow>, items: seq<Item>, prev: set<Sha>, cfg: Config, order: seq<Item>,
                    r: BucketRow)
    requires cfg.hDen > 0 && SizesAgree(rows) && Ranked(items, CatalogOf(rows)) && r in rows
    requires forall x :: x in items ==> Decided(TurnsOf(rows, prev, cfg), order, x)
    requires forall x :: x in order ==> x in items
    ensures (exists x :: x in order && x.sha == r.sha)
            || LeftOut(TurnsOf(rows, prev, cfg), order, r.sha, Charge(r.size, r.sha in prev, cfg))
    ensures forall x :: x in order && x.sha == r.sha ==> x.size == r.size
  {
    var x := RowItem(rows, items, r);
    forall y | y in order && y.sha == r.sha ensures y.size == r.size { ItemSize(rows, y, r); }
  }

  /** A manifest is what the walk takes: in the order of the buckets, every pin,
      and every other track that fits with what was taken before it, and no
      other. */
  lemma ManifestIsGreedy(rows: seq<BucketRow>, prev: set<Sha>, cfg: Config, tracks: seq<Track>, used: int)
    returns (order: seq<Item>)
    requires ValidConfig(cfg) && SizesAgree(rows) && Resolved(CatalogOf(rows), prev, cfg, tracks, used)
    ensures TakenAs(tracks, order) && used == Bytes(order) && Served(TurnsOf(rows, prev, cfg), order)
    ensures forall r :: r in rows ==>
              Admitted(tracks, r.sha)
              || LeftOut(TurnsOf(rows, prev, cfg), order, r.sha, Charge(r.size, r.sha in prev, cfg))
    ensures forall x, r :: x in order && r in rows && x.sha == r.sha ==> x.size == r.size
  {
    var items := TakenItems(CatalogOf(rows), prev, cfg, tracks, used);
    order := Admit(items, prev, cfg).picks;
    RankedIsGreedy(rows, items, prev, cfg);
    forall r | r in rows
      ensures Admitted(tracks, r.sha)
              || LeftOut(TurnsOf(rows, prev, cfg), order, r.sha, Charge(r.size, r.sha in prev, cfg))
      ensures forall x :: x in order && x.sha == r.sha ==> x.size == r.size
    {
      RowsDecided(rows, items, prev, cfg, order, r);
    }
  }

  lemma TakenItems(m: Catalog, prev: set<Sha>, cfg: Config, tracks: seq<Track>, used: int) returns (items: seq<Item>)
    requires cfg.hDen > 0 && Resolved(m, prev, cfg, tracks, used)
    ensures Ranked(items, m) && used == Admit(items, prev, cfg).used
    ensures TakenAs(tracks, Admit(items, prev, cfg).picks)
  {
    items :| Ranked(items, m) && used == Admit(items, prev, cfg).used
      && (forall t :: t in tracks <==> exists x :: x in Admit(items, prev, cfg).picks && TrackOf(x, t))
      && forall s :: s in Admit(items, prev, cfg).Shas() ==> Admitted(tracks, s);
    forall x | x in Admit(items, prev, cfg).picks ensures Admitted(tracks, x.sha) {
      assert x.sha in Admit(items, prev, cfg).Shas();
    }
  }

  lemma RankedIsGreedy(rows: seq<BucketRow>, items: seq<Item>, prev: set<Sha>, cfg: Config)
    requires cfg.hDen > 0 && SizesAgree(rows) && Ranked(items, CatalogOf(rows))
    ensures Walked(TurnsOf(rows, prev, cfg), items, Admit(items, prev, cfg))
  {
    RankedAgrees(rows, items, prev, cfg);
    AdmitIsGreedy(TurnsOf(rows, prev, cfg), items, prev, cfg);
  }

  /** Every pinned track is in the manifest, whatever the cap. */
  lemma PinsAdmitted(rows: seq<BucketRow>, prev: set<Sha>, cfg: Config, tracks: seq<Track>, used: int, s: Sha)
    requires ValidConfig(cfg) && SizesAgree(rows) && Resolved(CatalogOf(rows), prev, cfg, tracks, used)
    requires Pinned(rows, s)
    ensures Admitted(tracks, s)
  {
    var order := ManifestIsGreedy(rows, prev, cfg, tracks, used);
    var i :| 0 <= i < |rows| && rows[i].sha == s && rows[i].bucket == "manual_pins";
    assert rows[i] in rows;
  }

  /** Of two tracks only one is served before the other, and a pin only after
      pins. */
  lemma AheadOnce(rows: seq<BucketRow>, s: Sha, t: Sha)
    requires Ahead(rows, s, t)
    ensures !Ahead(rows, t, s) && (Pinned(rows, t) ==> Pinned(rows, s))
  {
    var a, b :| Best(rows, s, a) && Best(rows, t, b) && (Place(a) < Place(b) || (Place(a) == Place(b) && Less(s, t)));
    forall c, d | Best(rows, t, c) && Best(rows, s, d) ensures Place(c) == Place(b) && Place(d) == Place(a) {}
    if Less(s, t) && Less(t, s) { LessTransitive(s, t, s); }
    LessIrreflexive(s);
  }

  /** Of two tracks alike in size and residency, the one that is served first is
      in the manifest if the other is. */
  lemma BetterBucketFirst(rows: seq<BucketRow>, prev: set<Sha>, cfg: Config, tracks: seq<Track>, used: int,
                          r: BucketRow, q: BucketRow)
    requires ValidConfig(cfg) && SizesAgree(rows) && Resolved(CatalogOf(rows), prev, cfg, tracks, used)
    requires r in rows && q in rows && r.size == q.size && (r.sha in prev <==> q.sha in prev)
    requires Ahead(rows, r.sha, q.sha) && Admitted(tracks, q.sha)
    ensures Admitted(tracks, r.sha)
  {
    var rule := TurnsOf(rows, prev, cfg);
    var order := ManifestIsGreedy(rows, prev, cfg, tracks, used);
    AheadOnce(rows, r.sha, q.sha);
    var x := PickOf(tracks, order, q.sha);
    assert rule.charge(x) == Charge(r.size, r.sha in prev, cfg);
    NotBehind(rule, order, r.sha, x);
  }

  lemma PickOf(tracks: seq<Track>, order: seq<Item>, s: Sha) returns (x: Item)
    requires TakenAs(tracks, order) && Admitted(tracks, s)
    ensures x in order && x.sha == s
  {
    var i :| 0 <= i < |tracks| && tracks[i].sha == s;
    assert tracks[i] in tracks;
    x :| x in order && TrackOf(x, tracks[i]);
  }

  /** What stands before a pick and needed no more was not turned down. */
  lemma NotBehind(rule: Turns, order: seq<Item>, s: Sha, x: Item)
    requires Served(rule, order) && x in order
    requires rule.ahead(s, x.sha) && !rule.ahead(x.sha, s) && (rule.pinned(x.sha) ==> rule.pinned(s))
    ensures !LeftOut(rule, order, s, rule.charge(x))
  {
    var j: nat :| j < |order| && order[j] == x;
    forall k: nat ensures !TurnedDown(rule, order, s, rule.charge(x), k) {
      if k <= j { BytesGrow(order, k, j); }
    }
  }
}
