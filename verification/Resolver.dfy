/** resolver.c: candidates collected from the buckets, ranked, and admitted
    under the cap with hysteresis; resolve_cmd.c writes the result back. */
module Resolver {
  import opened Prelude
  import opened Sorting

  type Sha = string

  /** One row a bucket's query returns. */
  datatype BucketRow = BucketRow(sha: Sha, size: nat, bucket: string)

  /** What the rows say about a track, whatever their order. */
  datatype Entry = Entry(size: nat, buckets: set<string>)
  type Catalog = map<Sha, Entry>

  function Priority(bucket: string): nat {
    if bucket == "manual_pins" then 10
    else if bucket == "loved" then 8
    else if bucket == "top_played" then 7
    else if bucket == "recent_plays" then 6
    else if bucket == "recent_adds" then 5
    else if bucket == "exploration" then 2
    else 1
  }

  const PIN := 10

  /** p is the highest priority among the buckets. */
  ghost predicate IsTop(buckets: set<string>, p: nat) {
    (forall b :: b in buckets ==> Priority(b) <= p) && (buckets == {} ==> p == 0)
    && (buckets != {} ==> exists b :: b in buckets && Priority(b) == p)
  }

  // ---- cand_add ------------------------------------------------------------

  datatype Cand = Cand(sha: Sha, size: nat, priority: nat, buckets: seq<string>)

  ghost predicate CandOk(c: Cand) {
    Distinct(c.buckets) && c.buckets != [] && IsTop(Members(c.buckets), c.priority)
  }

  ghost predicate CandFor(c: Cand, m: Catalog) {
    CandOk(c) && c.sha in m && m[c.sha] == Entry(c.size, Members(c.buckets))
  }

  /** The candidates are the catalog's tracks, one each. */
  ghost predicate Collected(items: seq<Cand>, m: Catalog) {
    && (forall i :: 0 <= i < |items| ==> CandFor(items[i], m))
    && (forall i, j :: 0 <= i < j < |items| ==> items[i].sha != items[j].sha)
    && (forall s :: s in m ==> exists i :: 0 <= i < |items| && items[i].sha == s)
  }

  function AddRow(m: Catalog, r: BucketRow): Catalog {
    if r.sha in m then m[r.sha := Entry(m[r.sha].size, m[r.sha].buckets + {r.bucket})]
    else m[r.sha := Entry(r.size, {r.bucket})]
  }

  function CatalogOf(rows: seq<BucketRow>): Catalog {
    if rows == [] then map[] else AddRow(CatalogOf(rows[..|rows| - 1]), rows[|rows| - 1])
  }

  lemma TopOfOne(bucket: string)
    ensures IsTop({bucket}, Priority(bucket))
  {
    assert bucket in {bucket};
  }

  lemma TopOfMore(buckets: set<string>, p: nat, bucket: string)
    requires IsTop(buckets, p) && buckets != {}
    ensures IsTop(buckets + {bucket}, if Priority(bucket) > p then Priority(bucket) else p)
  {
    var b :| b in buckets && Priority(b) == p;
    assert b in buckets + {bucket} && bucket in buckets + {bucket};
  }

  lemma TopUnique(buckets: set<string>, p: nat, q: nat)
    requires IsTop(buckets, p) && IsTop(buckets, q)
    ensures p == q
  {}

  class CandSet {
    var items: seq<Cand>

    constructor ()
      ensures items == []
    {
      items := [];
    }

    /** cand_find. */
    method Find(sha: Sha) returns (at: nat)
      ensures at <= |items| && (at < |items| ==> items[at].sha == sha)
      ensures forall i :: 0 <= i < at ==> items[i].sha != sha
    {
      at := 0;
      while at < |items| && items[at].sha != sha
        invariant at <= |items| && forall i :: 0 <= i < at ==> items[i].sha != sha
      {
        at := at + 1;
      }
    }

    /** cand_add. */
    method Add(r: BucketRow, ghost m: Catalog)
      requires Collected(items, m)
      modifies this
      ensures Collected(items, AddRow(m, r))
    {
      ghost var before := items;
      var at := Find(r.sha);
      if at == |items| {
        items := items + [Cand(r.sha, r.size, Priority(r.bucket), [r.bucket])];
        NewCand(before, m, r);
      } else {
        var c := items[at];
        var p := if Priority(r.bucket) > c.priority then Priority(r.bucket) else c.priority;
        var known := false;
        for i := 0 to |c.buckets|
          invariant known <==> r.bucket in c.buckets[..i]
        {
          if c.buckets[i] == r.bucket { known := true; }
        }
        assert c.buckets[..|c.buckets|] == c.buckets;
        var buckets := if known then c.buckets else c.buckets + [r.bucket];
        items := items[at := c.(priority := p, buckets := buckets)];
        MoreBuckets(before, m, r, at, p, buckets);
      }
    }
  }

  lemma OtherCand(c: Cand, m: Catalog, r: BucketRow)
    requires CandFor(c, m) && c.sha != r.sha
    ensures CandFor(c, AddRow(m, r))
  {}

  lemma NewCand(items: seq<Cand>, m: Catalog, r: BucketRow)
    requires Collected(items, m) && forall i :: 0 <= i < |items| ==> items[i].sha != r.sha
    ensures Collected(items + [Cand(r.sha, r.size, Priority(r.bucket), [r.bucket])], AddRow(m, r))
  {
    var c := Cand(r.sha, r.size, Priority(r.bucket), [r.bucket]);
    var all, n := items + [c], AddRow(m, r);
    assert r.sha !in m;
    FirstRow(m, r);
    forall i | 0 <= i < |all| ensures CandFor(all[i], n) {
      if i < |items| { OtherCand(items[i], m, r); }
    }
    ShasWithNew(items, c, m, n);
  }

  lemma FirstRow(m: Catalog, r: BucketRow)
    requires r.sha !in m
    ensures CandFor(Cand(r.sha, r.size, Priority(r.bucket), [r.bucket]), AddRow(m, r))
  {
    TopOfOne(r.bucket);
    assert Members([r.bucket]) == {r.bucket};
  }

  /** Every track of the catalog has its candidate. */
  lemma ShasWithNew(items: seq<Cand>, c: Cand, m: Catalog, n: Catalog)
    requires forall s :: s in m ==> exists i :: 0 <= i < |items| && items[i].sha == s
    requires forall s :: s in n ==> s in m || s == c.sha
    ensures forall s :: s in n ==> exists i :: 0 <= i < |items + [c]| && (items + [c])[i].sha == s
  {
    forall s | s in n ensures exists i :: 0 <= i < |items + [c]| && (items + [c])[i].sha == s {
      if s in m {
        var i :| 0 <= i < |items| && items[i].sha == s;
        assert (items + [c])[i].sha == s;
      } else {
        assert (items + [c])[|items|].sha == s;
      }
    }
  }

  lemma MoreBuckets(items: seq<Cand>, m: Catalog, r: BucketRow, at: nat, p: nat, buckets: seq<string>)
    requires Collected(items, m) && at < |items| && items[at].sha == r.sha
    requires p == if Priority(r.bucket) > items[at].priority then Priority(r.bucket) else items[at].priority
    requires buckets == if r.bucket in items[at].buckets then items[at].buckets else items[at].buckets + [r.bucket]
    ensures Collected(items[at := items[at].(priority := p, buckets := buckets)], AddRow(m, r))
  {
    var n, d := AddRow(m, r), items[at].(priority := p, buckets := buckets);
    var all := items[at := d];
    assert CandFor(items[at], m);
    MoreBucketsOne(items[at], m, r, d);
    forall i | 0 <= i < |all| ensures CandFor(all[i], n) {
      if i != at { OtherCand(items[i], m, r); }
    }
    SameShas(items, all, m, n);
  }

  /** Every track of the catalog still has its candidate. */
  lemma SameShas(items: seq<Cand>, all: seq<Cand>, m: Catalog, n: Catalog)
    requires Collected(items, m) && |all| == |items| && n.Keys == m.Keys
    requires forall i :: 0 <= i < |all| ==> all[i].sha == items[i].sha
    ensures forall i, j :: 0 <= i < j < |all| ==> all[i].sha != all[j].sha
    ensures forall s :: s in n ==> exists i :: 0 <= i < |all| && all[i].sha == s
  {
    forall s | s in n ensures exists i :: 0 <= i < |all| && all[i].sha == s {
      assert s in m;
      var i :| 0 <= i < |items| && items[i].sha == s;
      assert all[i].sha == s;
    }
  }

  lemma MoreBucketsOne(c: Cand, m: Catalog, r: BucketRow, d: Cand)
    requires CandFor(c, m) && c.sha == r.sha
    requires d.sha == c.sha && d.size == c.size
    requires d.priority == if Priority(r.bucket) > c.priority then Priority(r.bucket) else c.priority
    requires d.buckets == if r.bucket in c.buckets then c.buckets else c.buckets + [r.bucket]
    ensures CandFor(d, AddRow(m, r))
  {
    assert c.buckets[0] in Members(c.buckets);
    TopOfMore(Members(c.buckets), c.priority, r.bucket);
    assert Members(d.buckets) == Members(c.buckets) + {r.bucket};
  }

  /** Every row about a track gives the size tracks records. */
  ghost predicate SizesAgree(rows: seq<BucketRow>) {
    forall i, j :: 0 <= i < |rows| && 0 <= j < |rows| && rows[i].sha == rows[j].sha ==> rows[i].size == rows[j].size
  }

  /** The catalog says what the set of rows says. */
  lemma {:induction false} CatalogSpec(rows: seq<BucketRow>, s: Sha)
    requires SizesAgree(rows)
    ensures s in CatalogOf(rows) <==> exists r :: r in rows && r.sha == s
    ensures s in CatalogOf(rows) ==> CatalogOf(rows)[s].buckets != {}
    ensures s in CatalogOf(rows) ==>
              forall b :: b in CatalogOf(rows)[s].buckets <==> BucketRow(s, CatalogOf(rows)[s].size, b) in rows
  {
    if rows == [] {
    } else {
      var front, r := rows[..|rows| - 1], rows[|rows| - 1];
      assert rows == front + [r];
      assert forall i, j :: 0 <= i < |front| && 0 <= j < |front| ==> rows[i] == front[i] && rows[j] == front[j];
      CatalogSpec(front, s);
      var m := CatalogOf(front);
      if s in m && r.sha == s {
        var b :| b in m[s].buckets;
        SameSize(rows, BucketRow(s, m[s].size, b), r);
      }
      if s !in m { assert forall x :: x in front ==> x.sha != s; }
    }
  }

  lemma SameSize(rows: seq<BucketRow>, x: BucketRow, y: BucketRow)
    requires SizesAgree(rows) && x in rows && y in rows && x.sha == y.sha
    ensures x.size == y.size
  {
    var i :| 0 <= i < |rows| && rows[i] == x;
    var j :| 0 <= j < |rows| && rows[j] == y;
  }

  /** So it does not depend on their order or repetition. */
  lemma CatalogOrderFree(a: seq<BucketRow>, b: seq<BucketRow>)
    requires SizesAgree(a) && SameMembers(a, b)
    ensures CatalogOf(a) == CatalogOf(b)
  {
    assert SizesAgree(b) by {
      forall i, j | 0 <= i < |b| && 0 <= j < |b| && b[i].sha == b[j].sha ensures b[i].size == b[j].size {
        SameSize(a, b[i], b[j]);
      }
    }
    var m, n := CatalogOf(a), CatalogOf(b);
    forall s ensures s in m <==> s in n {
      CatalogSpec(a, s);
      CatalogSpec(b, s);
    }
    forall s | s in m ensures m[s] == n[s] {
      CatalogSpec(a, s);
      CatalogSpec(b, s);
      var b1 :| b1 in m[s].buckets;
      var b2 :| b2 in n[s].buckets;
      SameSize(a, BucketRow(s, m[s].size, b1), BucketRow(s, n[s].size, b2));
    }
  }
}
