/** Exactly which walks of scan.c fail on UNIQUE(path), and which file a row
    names after one that does not. */
module ScanFailure {
  import opened Scan

  /** A file before the i-th counts and has content c. */
  ghost predicate Earlier(files: seq<Visit>, blacklist: set<Sha>, c: Sha, i: nat)
    requires i <= |files|
  {
    exists j :: 0 <= j < i && Counts(files[j], blacklist) && files[j].content == c
  }

  /** A file before the i-th counts and stands at path p. */
  ghost predicate Passed(files: seq<Visit>, blacklist: set<Sha>, p: Path, i: nat)
    requires i <= |files|
  {
    exists j :: 0 <= j < i && Counts(files[j], blacklist) && files[j].path == p
  }

  /** Content c has a row when the i-th file is reached: it has been walked, or
      it had one and the file at that row's path has not been. */
  ghost predicate HasRow(t: Tracks, blacklist: set<Sha>, files: seq<Visit>, c: Sha, i: nat)
    requires i <= |files|
  {
    Earlier(files, blacklist, c, i) || (c in t && !Passed(files, blacklist, t[c].path, i))
  }

  /** The i-th file has the path of another content's row, which no earlier file
      has moved away, while its own content has a row too. */
  ghost predicate Clash(t: Tracks, blacklist: set<Sha>, files: seq<Visit>, i: nat)
    requires i < |files|
  {
    && Counts(files[i], blacklist)
    && HasRow(t, blacklist, files, files[i].content, i)
    && exists s :: Owns(t, s, files[i].path) && s != files[i].content && !Earlier(files, blacklist, s, i)
  }

  /** The database fails while the i-th file is handled. */
  predicate DbFault(files: seq<Visit>, i: nat)
    requires i < |files|
  {
    files[i].dbFails && !IsArtifact(files[i].path)
  }

  ghost predicate Stops(t: Tracks, blacklist: set<Sha>, files: seq<Visit>, i: nat)
    requires i < |files|
  {
    DbFault(files, i) || Clash(t, blacklist, files, i)
  }

  // ---- one file ------------------------------------------------------------

  lemma OrdinaryPrefix(t: Tracks, blacklist: set<Sha>, files: seq<Visit>, now: int, root: Path, i: nat)
    requires Ordinary(t, blacklist, files, now, root) && i <= |files|
    ensures Ordinary(t, blacklist, files[..i], now, root)
  {
    assert forall k :: 0 <= k < i ==> files[..i][k] == files[k];
  }

  /** The table when the i-th file is reached. */
  lemma Reached(t: Tracks, blacklist: set<Sha>, files: seq<Visit>, now: int, root: Path, i: nat)
    requires Ordinary(t, blacklist, files, now, root) && i < |files|
    ensures forall g :: g in files[..i] ==> g.path != files[i].path
    ensures Walk(t, blacklist, files[..i], now).None? ==> Walk(t, blacklist, files[..i + 1], now).None?
    ensures Walk(t, blacklist, files[..i], now).Some? ==>
              var w := Walk(t, blacklist, files[..i], now).value;
              && WalkInv(t, w, blacklist, files[..i], now)
              && Walk(t, blacklist, files[..i + 1], now) == OnFile(w, blacklist, files[i], now)
  {
    assert files[..i + 1][..i] == files[..i];
    forall g | g in files[..i] ensures g.path != files[i].path {
      var j :| 0 <= j < i && files[..i][j] == g;
      assert files[j] == g;
    }
    if Walk(t, blacklist, files[..i], now).Some? {
      OrdinaryPrefix(t, blacklist, files, now, root, i);
      WalkKeepsInv(t, blacklist, files[..i], now, root);
    }
  }

  lemma WalkedIs(files: seq<Visit>, blacklist: set<Sha>, i: nat)
    requires i <= |files|
    ensures forall c :: Earlier(files, blacklist, c, i) <==>
              exists g :: g in files[..i] && Counts(g, blacklist) && g.content == c
    ensures forall p :: Passed(files, blacklist, p, i) <==>
              exists g :: g in files[..i] && Counts(g, blacklist) && g.path == p
  {
    var front := files[..i];
    assert forall j :: 0 <= j < i ==> front[j] == files[j] && files[j] in front;
    forall c
      ensures Earlier(files, blacklist, c, i) <==> exists g :: g in front && Counts(g, blacklist) && g.content == c
    {
      if g :| g in front && Counts(g, blacklist) && g.content == c {
        var j :| 0 <= j < |front| && front[j] == g;
      }
    }
    forall p ensures Passed(files, blacklist, p, i) <==> exists g :: g in front && Counts(g, blacklist) && g.path == p {
      if g :| g in front && Counts(g, blacklist) && g.path == p {
        var j :| 0 <= j < |front| && front[j] == g;
      }
    }
  }

  /** The owner of a path not walked yet is the row that had it before, unless
      an earlier file moved that row away. */
  lemma OwnerThen(t: Tracks, w: Tracks, blacklist: set<Sha>, files: seq<Visit>, now: int, i: nat, s: Sha, p: Path)
    requires i <= |files| && WalkInv(t, w, blacklist, files[..i], now) && forall g :: g in files[..i] ==> g.path != p
    requires forall c :: c in t ==> t[c].seen < now
    ensures Owns(w, s, p) ==> Owns(t, s, p) && w[s] == t[s] && !Earlier(files, blacklist, s, i)
    ensures s in w && Owns(t, s, p) && !Earlier(files, blacklist, s, i) ==> Owns(w, s, p)
  {
    WalkedIs(files, blacklist, i);
    if s in w && w[s].seen == now {
      var g :| Shows(files[..i], blacklist, g, s, w[s]);
    }
  }

  lemma StaysUnlessOwner(w: Tracks, blacklist: set<Sha>, f: Visit, now: int, s: Sha)
    requires s in w && OnFile(w, blacklist, f, now).Some?
    requires Owns(w, s, f.path) ==> !Counts(f, blacklist)
    ensures s in OnFile(w, blacklist, f, now).value
  {
  }

  /** A row stays until a counting file is found at its path. */
  lemma {:induction false} RowStays(t: Tracks, blacklist: set<Sha>, files: seq<Visit>, now: int, root: Path, i: nat,
                                    c: Sha)
    requires Ordinary(t, blacklist, files, now, root) && i <= |files|
    requires Walk(t, blacklist, files[..i], now).Some? && HasRow(t, blacklist, files, c, i)
    ensures c in Walk(t, blacklist, files[..i], now).value
  {
    OrdinaryPrefix(t, blacklist, files, now, root, i);
    WalkKeepsInv(t, blacklist, files[..i], now, root);
    WalkedIs(files, blacklist, i);
    if i > 0 && !Earlier(files, blacklist, c, i) {
      Reached(t, blacklist, files, now, root, i - 1);
      RowStays(t, blacklist, files, now, root, i - 1, c);
      var w := Walk(t, blacklist, files[..i - 1], now).value;
      OwnerThen(t, w, blacklist, files, now, i - 1, c, files[i - 1].path);
      StaysUnlessOwner(w, blacklist, files[i - 1], now, c);
    }
  }

  /** The contents that have a row when the i-th file is reached. */
  lemma RowThen(t: Tracks, blacklist: set<Sha>, files: seq<Visit>, now: int, root: Path, i: nat, c: Sha)
    requires Ordinary(t, blacklist, files, now, root) && i <= |files| && Walk(t, blacklist, files[..i], now).Some?
    ensures c in Walk(t, blacklist, files[..i], now).value <==> HasRow(t, blacklist, files, c, i)
  {
    OrdinaryPrefix(t, blacklist, files, now, root, i);
    WalkKeepsInv(t, blacklist, files[..i], now, root);
    WalkedIs(files, blacklist, i);
    var w := Walk(t, blacklist, files[..i], now).value;
    if HasRow(t, blacklist, files, c, i) { RowStays(t, blacklist, files, now, root, i, c); }
    if c in w && w[c].seen == now { var g :| Shows(files[..i], blacklist, g, c, w[c]); }
  }

  // ---- when a walk fails ---------------------------------------------------

  lemma StopsHere(t: Tracks, blacklist: set<Sha>, files: seq<Visit>, now: int, root: Path, i: nat)
    requires Ordinary(t, blacklist, files, now, root) && i < |files| && Walk(t, blacklist, files[..i], now).Some?
    ensures Walk(t, blacklist, files[..i + 1], now).None? <==> Stops(t, blacklist, files, i)
  {
    var f, w := files[i], Walk(t, blacklist, files[..i], now).value;
    Reached(t, blacklist, files, now, root, i);
    RowThen(t, blacklist, files, now, root, i, f.content);
    var hit := OwnerOf(w, f.path);
    if hit.Some? { OwnerThen(t, w, blacklist, files, now, i, hit.value, f.path); }
    if Clash(t, blacklist, files, i) {
      var s :| Owns(t, s, f.path) && s != f.content && !Earlier(files, blacklist, s, i);
      RowThen(t, blacklist, files, now, root, i, s);
      NotPassed(files, blacklist, i);
      OwnerThen(t, w, blacklist, files, now, i, s, f.path);
    }
  }

  lemma NotPassed(files: seq<Visit>, blacklist: set<Sha>, i: nat)
    requires i < |files| && forall g :: g in files[..i] ==> g.path != files[i].path
    ensures !Passed(files, blacklist, files[i].path, i)
  {
    WalkedIs(files, blacklist, i);
  }

  lemma {:induction false} PrefixFails(t: Tracks, blacklist: set<Sha>, files: seq<Visit>, now: int, root: Path, n: nat)
    requires Ordinary(t, blacklist, files, now, root) && n <= |files|
    ensures Walk(t, blacklist, files[..n], now).None? <==> exists i :: 0 <= i < n && Stops(t, blacklist, files, i)
  {
    if n == 0 {
    } else {
      PrefixFails(t, blacklist, files, now, root, n - 1);
      Reached(t, blacklist, files, now, root, n - 1);
      if Walk(t, blacklist, files[..n - 1], now).Some? {
        StopsHere(t, blacklist, files, now, root, n - 1);
      }
    }
  }

  /** A walk fails exactly when the database does, or some file has the path of
      another content's row while its own content has a row. */
  lemma WalkFailsExactly(t: Tracks, blacklist: set<Sha>, files: seq<Visit>, now: int, root: Path)
    requires Ordinary(t, blacklist, files, now, root)
    ensures Walk(t, blacklist, files, now).None? <==> exists i :: 0 <= i < |files| && Stops(t, blacklist, files, i)
  {
    PrefixFails(t, blacklist, files, now, root, |files|);
    assert files[..|files|] == files;
  }

  /** The same two files pass in one order and fail in the other: the row of the
      path's old content is moved away first, or not. */
  lemma OrderDecides(t: Tracks, blacklist: set<Sha>, a: Visit, b: Visit, now: int, root: Path)
    requires Ordinary(t, blacklist, [a, b], now, root) && Ordinary(t, blacklist, [b, a], now, root)
    requires Counts(a, blacklist) && Counts(b, blacklist) && !a.dbFails && !b.dbFails && a.content != b.content
    requires a.content in t && Owns(t, b.content, a.path) && forall s :: !Owns(t, s, b.path)
    ensures Walk(t, blacklist, [a, b], now).None? && Walk(t, blacklist, [b, a], now).Some?
  {
    assert Stops(t, blacklist, [a, b], 0);
    WalkFailsExactly(t, blacklist, [a, b], now, root);
    WalkFailsExactly(t, blacklist, [b, a], now, root);
    assert Counts([b, a][0], blacklist) && [b, a][0].content == b.content;
    assert Earlier([b, a], blacklist, b.content, 1);
  }

  // ---- files that trade places ---------------------------------------------

  /** The files of a and b have traded places, and neither content is anywhere
      else. */
  ghost predicate Traded(t: Tracks, blacklist: set<Sha>, files: seq<Visit>, a: Sha, b: Sha) {
    && a != b && a in t && b in t
    && (exists i :: 0 <= i < |files| && Counts(files[i], blacklist)
          && files[i].path == t[a].path && files[i].content == b)
    && (exists j :: 0 <= j < |files| && Counts(files[j], blacklist)
          && files[j].path == t[b].path && files[j].content == a)
    && (forall f :: f in files && Counts(f, blacklist) && f.content == b ==> f.path == t[a].path)
    && (forall f :: f in files && Counts(f, blacklist) && f.content == a ==> f.path == t[b].path)
  }

  /** The one walked first stops the walk. */
  lemma TradedClash(t: Tracks, blacklist: set<Sha>, files: seq<Visit>, now: int, root: Path, a: Sha, b: Sha, i: nat,
                    j: nat)
    requires Ordinary(t, blacklist, files, now, root) && Traded(t, blacklist, files, a, b) && i < j < |files|
    requires Counts(files[i], blacklist) && files[i].path == t[a].path && files[i].content == b
    requires files[j].path == t[b].path
    ensures Clash(t, blacklist, files, i)
  {
    forall k | 0 <= k < i ensures files[k].path != t[b].path && files[k].path != t[a].path && files[k] in files {}
    assert Owns(t, a, files[i].path) && !Earlier(files, blacklist, a, i);
    assert !Passed(files, blacklist, t[b].path, i);
  }

  /** Two files that trade places while both contents keep their rows: wherever
      they come in the walk, the scan is rolled back. */
  lemma SwapBlocksScan(t: Tracks, blacklist: set<Sha>, files: seq<Visit>, now: int, root: Path, a: Sha, b: Sha)
    requires Ordinary(t, blacklist, files, now, root) && Traded(t, blacklist, files, a, b)
    ensures ScanRun(t, blacklist, files, now, root) == t
  {
    var i :| 0 <= i < |files| && Counts(files[i], blacklist) && files[i].path == t[a].path && files[i].content == b;
    var j :| 0 <= j < |files| && Counts(files[j], blacklist) && files[j].path == t[b].path && files[j].content == a;
    assert Owns(t, a, t[a].path) && Owns(t, b, t[b].path);
    if i < j {
      TradedClash(t, blacklist, files, now, root, a, b, i, j);
      assert Stops(t, blacklist, files, i);
    } else {
      TradedClash(t, blacklist, files, now, root, b, a, j, i);
      assert Stops(t, blacklist, files, j);
    }
    WalkFailsExactly(t, blacklist, files, now, root);
  }

  /** And so is every later one, in whatever order it walks, for as long as they
      stay there. */
  lemma {:induction false} SwapBlocksEveryScan(tables: seq<Tracks>, walks: seq<seq<Visit>>, nows: seq<int>,
                                               blacklist: set<Sha>,
                                               root: Path, a: Sha, b: Sha, n: nat)
    requires |tables| == |walks| + 1 == |nows| + 1 && n < |tables|
    requires forall k :: 0 <= k < |walks| ==> tables[k + 1] == ScanRun(tables[k], blacklist, walks[k], nows[k], root)
    requires forall k :: 0 <= k < |walks| ==>
               Ordinary(tables[0], blacklist, walks[k], nows[k], root) && Traded(tables[0], blacklist, walks[k], a, b)
    ensures tables[n] == tables[0]
  {
    if n == 0 {
    } else {
      SwapBlocksEveryScan(tables, walks, nows, blacklist, root, a, b, n - 1);
      SwapBlocksScan(tables[0], blacklist, walks[n - 1], nows[n - 1], root, a, b);
      assert tables[n - 1 + 1] == ScanRun(tables[n - 1], blacklist, walks[n - 1], nows[n - 1], root);
    }
  }

  // ---- which file a row names ----------------------------------------------

  /** No later file has the content of the i-th. */
  ghost predicate LastWith(files: seq<Visit>, blacklist: set<Sha>, i: nat, n: nat)
    requires i < n <= |files|
  {
    Counts(files[i], blacklist) &&
    forall j :: i < j < n && Counts(files[j], blacklist) ==> files[j].content != files[i].content
  }

  lemma WriteHere(w: Tracks, blacklist: set<Sha>, f: Visit, now: int)
    requires f.statOk && f.hashOk && Counts(f, blacklist) && OnFile(w, blacklist, f, now).Some?
    requires forall s :: Owns(w, s, f.path) && SameStat(w[s], f) ==> f.content == s
    ensures Owns(OnFile(w, blacklist, f, now).value, f.content, f.path)
  {
  }

  lemma PathKept(w: Tracks, blacklist: set<Sha>, f: Visit, now: int, c: Sha)
    requires c in w && w[c].path != f.path && (Counts(f, blacklist) ==> f.content != c)
    requires OnFile(w, blacklist, f, now).Some?
    ensures Owns(OnFile(w, blacklist, f, now).value, c, w[c].path)
  {
  }

  lemma {:induction false} LastSoFar(t: Tracks, blacklist: set<Sha>, files: seq<Visit>, now: int, root: Path, i: nat,
                                     n: nat)
    requires Ordinary(t, blacklist, files, now, root) && i < n <= |files| && LastWith(files, blacklist, i, n)
    requires Walk(t, blacklist, files[..n], now).Some?
    ensures Owns(Walk(t, blacklist, files[..n], now).value, files[i].content, files[i].path)
  {
    var f := files[n - 1];
    Reached(t, blacklist, files, now, root, n - 1);
    var w := Walk(t, blacklist, files[..n - 1], now).value;
    if n == i + 1 {
      forall s | Owns(w, s, f.path) && SameStat(w[s], f) ensures f.content == s {
        OwnerThen(t, w, blacklist, files, now, n - 1, s, f.path);
      }
      WriteHere(w, blacklist, f, now);
    } else {
      LastSoFar(t, blacklist, files, now, root, i, n - 1);
      PathKept(w, blacklist, f, now, files[i].content);
    }
  }

  /** After a walk a row names the last file walked that has its content. */
  lemma LastVisitWins(t: Tracks, blacklist: set<Sha>, files: seq<Visit>, now: int, root: Path, i: nat)
    requires Ordinary(t, blacklist, files, now, root) && i < |files| && LastWith(files, blacklist, i, |files|)
    requires Walk(t, blacklist, files, now).Some?
    ensures Owns(ScanRun(t, blacklist, files, now, root), files[i].content, files[i].path)
  {
    assert files[..|files|] == files;
    LastSoFar(t, blacklist, files, now, root, i, |files|);
    WalkKeepsInv(t, blacklist, files, now, root);
    assert files[i] in files;
  }

  /** No row is marked later than the scan. */
  lemma SeenBy(t: Tracks, blacklist: set<Sha>, files: seq<Visit>, now: int, root: Path, s: Sha)
    requires Ordinary(t, blacklist, files, now, root) && Walk(t, blacklist, files, now).Some?
    requires s in ScanRun(t, blacklist, files, now, root)
    ensures ScanRun(t, blacklist, files, now, root)[s].seen <= now
  {
    WalkKeepsInv(t, blacklist, files, now, root);
  }

  /** Walking two files of the only content there is. */
  lemma TwoFiles(t: Tracks, a: Visit, b: Visit, now: int, root: Path)
    requires Ordinary(t, {}, [a, b], now, root) && t.Keys == {a.content} && b.content == a.content
    requires Counts(a, {}) && Counts(b, {}) && !a.dbFails && !b.dbFails && Under(root, t[a.content].path)
    ensures Walk(t, {}, [a, b], now).Some?
    ensures ScanRun(t, {}, [a, b], now, root).Keys == {a.content}
    ensures ScanRun(t, {}, [a, b], now, root)[a.content].path == b.path
  {
    var files, u := [a, b], ScanRun(t, {}, [a, b], now, root);
    WalkFailsExactly(t, {}, files, now, root);
    LastVisitWins(t, {}, files, now, root, 1);
    ScanResult(t, {}, files, now, root);
    assert Owns(u, files[1].content, files[1].path);
    forall s | s in u ensures s == a.content {
      if Under(root, u[s].path) { var f :| f in files && f.content == s; }
    }
  }
}
