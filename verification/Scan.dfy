/** scan.c over track_repo.c's table: an incremental walk that hashes only what
    changed, and a sweep of what was not seen, in one transaction. */
module Scan {
  import opened Prelude

  type Sha = string
  type Path = string

  /** The columns of tracks that decide anything here. */
  datatype Row = Row(path: Path, mtime: int, size: int, seen: int)
  type Tracks = map<Sha, Row>

  /** A file the walker enumerates, what lstat and the payload hash would say,
      and whether the database fails while it is handled. */
  datatype Visit = Visit(path: Path, statOk: bool, mtime: int, size: int, hashOk: bool, content: Sha, dbFails: bool)

  /** UNIQUE(path). */
  ghost predicate UniquePaths(t: Tracks) {
    forall a, b :: a in t && b in t && t[a].path == t[b].path ==> a == b
  }

  ghost predicate Owns(t: Tracks, s: Sha, p: Path) { s in t && t[s].path == p }

  /** track_repo_lookup_by_path. */
  ghost function OwnerOf(t: Tracks, p: Path): (o: Option<Sha>)
    ensures o.Some? ==> Owns(t, o.value, p)
    ensures o.None? ==> forall s :: !Owns(t, s, p)
  {
    if exists s :: Owns(t, s, p) then var s :| Owns(t, s, p); Some(s) else None
  }

  predicate EndsWith(s: string, suffix: string) {
    |suffix| <= |s| && s[|s| - |suffix|..] == suffix
  }

  predicate Contains(s: string, part: string) {
    part <= s || (s != [] && Contains(s[1..], part))
  }

  function Lower(s: string): string {
    seq(|s|, i requires 0 <= i < |s| => if 'A' <= s[i] <= 'Z' then s[i] + 32 as char else s[i])
  }

  /** is_transcode_artifact. */
  predicate IsArtifact(path: Path) {
    Contains(path, "/resident/")
    && (EndsWith(Lower(path), ".opus") || EndsWith(Lower(path), ".m4a") || EndsWith(Lower(path), ".aac"))
  }

  lemma {:induction false} ContainsExactly(s: string, part: string)
    ensures Contains(s, part) <==> exists a: string, b: string :: s == a + part + b
  {
    if part <= s { assert s == [] + part + s[|part|..]; }
    if s != [] {
      ContainsExactly(s[1..], part);
      if a: string, b: string :| s[1..] == a + part + b { assert s == ([s[0]] + a) + part + b; }
      if a: string, b: string :| s == a + part + b && a != [] { assert s[1..] == a[1..] + part + b; }
    }
    if a: string, b: string :| s == a + part + b && a == [] { assert part <= s; }
  }

  /** The end of the path, in small letters. */
  function Ending(path: string, n: nat): string { if n <= |path| then Lower(path[|path| - n..]) else "" }

  /** What is taken for a transcode: a path under a directory resident/ that
      ends, in whatever case, in .opus, .m4a or .aac. */
  lemma ArtifactExactly(path: Path)
    ensures IsArtifact(path) <==>
            && (exists a: string, b: string :: path == a + "/resident/" + b)
            && (Ending(path, 5) == ".opus" || Ending(path, 4) == ".m4a" || Ending(path, 4) == ".aac")
  {
    ContainsExactly(path, "/resident/");
    forall n: nat | n <= |path| ensures Lower(path)[|path| - n..] == Ending(path, n) {}
  }

  predicate SameStat(r: Row, f: Visit) { r.mtime == f.mtime && r.size == f.size }

  /** on_file: the table after one file, or None for a hard error. A changed
      file whose new content already has a row moves that row to its path,
      which fails when the path belongs to another row. */
  ghost function OnFile(t: Tracks, blacklist: set<Sha>, f: Visit, now: int): Option<Tracks> {
    if IsArtifact(f.path) || !f.statOk then Some(t)
    else if f.dbFails then None else
    var hit := OwnerOf(t, f.path);
    if hit.Some? && SameStat(t[hit.value], f) then Some(t[hit.value := t[hit.value].(seen := now)])
    else if !f.hashOk || f.content in blacklist then Some(t) else
    var row := Row(f.path, f.mtime, f.size, now);
    if f.content in t then
      (if hit.Some? && hit.value != f.content then None else Some(t[f.content := row]))
    else if hit.Some? then Some((t - {hit.value})[f.content := row])
    else Some(t[f.content := row])
  }

  ghost function Walk(t: Tracks, blacklist: set<Sha>, files: seq<Visit>, now: int): Option<Tracks> {
    if files == [] then Some(t) else
    var front := Walk(t, blacklist, files[..|files| - 1], now);
    if front.None? then None else OnFile(front.value, blacklist, files[|files| - 1], now)
  }

  predicate Under(root: Path, p: Path) { root + "/" <= p }

  /** Another directory whose name begins like root's is not under it. */
  lemma UnderExactly(root: Path, p: Path)
    ensures Under(root, p) <==> exists tail: Path :: p == root + "/" + tail
  {
    if Under(root, p) { assert p == root + "/" + p[|root + "/"|..]; }
  }

  /** DELETE FROM tracks of what the walk under root did not see. */
  function Sweep(t: Tracks, root: Path, now: int): Tracks {
    map s | s in t && !(Under(root, t[s].path) && t[s].seen < now) :: t[s]
  }

  // ---- what a successful scan leaves ---------------------------------------

  /** The files that count. */
  predicate Counts(f: Visit, blacklist: set<Sha>) { !IsArtifact(f.path) && f.content !in blacklist }

  /** The assumptions about one scan: the clock has moved on since the last
      one, no blacklisted track kept a row, the walk is of distinct paths under
      root, nothing failed to stat or hash, and a file whose (mtime, size) its
      row still matches has the content the row says. */
  ghost predicate Ordinary(t: Tracks, blacklist: set<Sha>, files: seq<Visit>, now: int, root: Path) {
    && UniquePaths(t)
    && (forall s :: s in t ==> t[s].seen < now && s !in blacklist)
    && (forall i, j :: 0 <= i < j < |files| ==> files[i].path != files[j].path)
    && (forall i :: 0 <= i < |files| ==> Under(root, files[i].path) && files[i].statOk && files[i].hashOk)
    && (forall i, s :: 0 <= i < |files| && Owns(t, s, files[i].path) && SameStat(t[s], files[i]) ==>
          files[i].content == s)
  }

  /** f is among the files walked, counts, has content s, and row r of s has its
      path, its modification time and its size. */
  ghost predicate Shows(files: seq<Visit>, blacklist: set<Sha>, f: Visit, s: Sha, r: Row) {
    && f in files && Counts(f, blacklist) && f.content == s
    && r.path == f.path && r.mtime == f.mtime && r.size == f.size
  }

  /** Part way through the walk: a row seen in it names a file walked that has
      its content, any other row is as it was and names no counting file
      walked, and every counting file walked has its row. */
  ghost predicate WalkInv(t0: Tracks, t: Tracks, blacklist: set<Sha>, files: seq<Visit>, now: int) {
    && UniquePaths(t)
    && (forall s :: s in t && t[s].seen == now ==> exists f :: Shows(files, blacklist, f, s, t[s]))
    && (forall s :: s in t && t[s].seen != now ==> s in t0 && t[s] == t0[s])
    && (forall s, f :: s in t && t[s].seen != now && f in files && Counts(f, blacklist) ==> t[s].path != f.path)
    && (forall f :: f in files && Counts(f, blacklist) ==> f.content in t && t[f.content].seen == now)
  }

  lemma OrdinaryFront(t: Tracks, blacklist: set<Sha>, files: seq<Visit>, now: int, root: Path)
    requires Ordinary(t, blacklist, files, now, root) && files != []
    ensures Ordinary(t, blacklist, files[..|files| - 1], now, root)
    ensures forall g :: g in files[..|files| - 1] ==> g.path != files[|files| - 1].path
  {
    var front := files[..|files| - 1];
    assert forall i :: 0 <= i < |front| ==> front[i] == files[i];
    forall g | g in front ensures g.path != files[|files| - 1].path {
      var i :| 0 <= i < |front| && front[i] == g;
      assert files[i] == g;
    }
  }

  lemma {:induction false} WalkKeepsInv(t0: Tracks, blacklist: set<Sha>, files: seq<Visit>, now: int, root: Path)
    requires Ordinary(t0, blacklist, files, now, root) && Walk(t0, blacklist, files, now).Some?
    ensures WalkInv(t0, Walk(t0, blacklist, files, now).value, blacklist, files, now)
  {
    if files == [] {
    } else {
      var front, f := files[..|files| - 1], files[|files| - 1];
      OrdinaryFront(t0, blacklist, files, now, root);
      WalkKeepsInv(t0, blacklist, front, now, root);
      assert files == front + [f];
      var t := Walk(t0, blacklist, front, now).value;
      assert forall s :: Owns(t0, s, f.path) && SameStat(t0[s], f) ==> f.content == s by {
        assert files[|files| - 1] == f;
      }
      VisitKeepsInv(t0, t, blacklist, front, f, now);
    }
  }

  lemma StillShown(front: seq<Visit>, f: Visit, blacklist: set<Sha>, s: Sha, r: Row)
    requires exists g :: Shows(front, blacklist, g, s, r)
    ensures exists g :: Shows(front + [f], blacklist, g, s, r)
  {
    var g :| Shows(front, blacklist, g, s, r);
    assert Shows(front + [f], blacklist, g, s, r);
  }

  /** The row of a counting file is written, the rows in t1 being those of t
      but perhaps for one not seen, and no other row having the path. */
  lemma PutKeepsInv(t0: Tracks, t: Tracks, t1: Tracks, blacklist: set<Sha>, front: seq<Visit>, f: Visit, now: int,
                    row: Row)
    requires WalkInv(t0, t, blacklist, front, now) && Counts(f, blacklist) && row == Row(f.path, f.mtime, f.size, now)
    requires forall s :: s in t1 ==> s in t && t1[s] == t[s]
    requires forall s :: s in t && t[s].seen == now ==> s in t1
    requires forall s :: s in t1 && t1[s].path == f.path ==> s == f.content
    ensures WalkInv(t0, t1[f.content := row], blacklist, front + [f], now)
  {
    var files, u := front + [f], t1[f.content := row];
    assert forall g :: g in files <==> g in front || g == f;
    forall s | s in u && u[s].seen == now ensures exists g :: Shows(files, blacklist, g, s, u[s]) {
      if s == f.content {
        assert Shows(files, blacklist, f, s, u[s]);
      } else {
        StillShown(front, f, blacklist, s, t[s]);
      }
    }
    forall s | s in u && u[s].seen != now ensures s in t && u[s] == t[s] {}
    forall g | g in files && Counts(g, blacklist) ensures g.content in u && u[g.content].seen == now {
      if g != f { assert g in front; }
    }
  }

  /** A file that does not count changes nothing. */
  lemma SkipKeepsInv(t0: Tracks, t: Tracks, blacklist: set<Sha>, front: seq<Visit>, f: Visit, now: int)
    requires WalkInv(t0, t, blacklist, front, now) && !Counts(f, blacklist)
    ensures WalkInv(t0, t, blacklist, front + [f], now)
  {
    var files := front + [f];
    assert forall g :: g in files <==> g in front || g == f;
    forall s | s in t && t[s].seen == now ensures exists g :: Shows(files, blacklist, g, s, t[s]) {
      var g :| Shows(front, blacklist, g, s, t[s]);
      assert Shows(files, blacklist, g, s, t[s]);
    }
  }

  /** A row that has the path of a file not walked yet was not seen. */
  lemma UnseenHit(t0: Tracks, t: Tracks, blacklist: set<Sha>, front: seq<Visit>, f: Visit, now: int, s: Sha)
    requires WalkInv(t0, t, blacklist, front, now) && Owns(t, s, f.path)
    requires forall g :: g in front ==> g.path != f.path
    ensures t[s].seen != now && s in t0 && t[s] == t0[s]
  {
    assert forall g :: !Shows(front, blacklist, g, s, t[s]);
  }

  lemma VisitKeepsInv(t0: Tracks, t: Tracks, blacklist: set<Sha>, front: seq<Visit>, f: Visit, now: int)
    requires WalkInv(t0, t, blacklist, front, now) && OnFile(t, blacklist, f, now).Some?
    requires f.statOk && f.hashOk && forall g :: g in front ==> g.path != f.path
    requires forall s :: s in t0 ==> t0[s].seen < now && s !in blacklist
    requires forall s :: Owns(t0, s, f.path) && SameStat(t0[s], f) ==> f.content == s
    ensures WalkInv(t0, OnFile(t, blacklist, f, now).value, blacklist, front + [f], now)
  {
    var hit := OwnerOf(t, f.path);
    if hit.Some? { UnseenHit(t0, t, blacklist, front, f, now, hit.value); }
    if IsArtifact(f.path) {
      SkipKeepsInv(t0, t, blacklist, front, f, now);
    } else if hit.Some? && SameStat(t[hit.value], f) {
      assert Owns(t0, hit.value, f.path);
      PutKeepsInv(t0, t, t, blacklist, front, f, now, t[hit.value].(seen := now));
    } else if f.content in blacklist {
      SkipKeepsInv(t0, t, blacklist, front, f, now);
    } else {
      var row := Row(f.path, f.mtime, f.size, now);
      assert forall s :: s in t && t[s].path == f.path ==> Owns(t, s, f.path);
      if f.content !in t && hit.Some? {
        PutKeepsInv(t0, t, t - {hit.value}, blacklist, front, f, now, row);
      } else {
        PutKeepsInv(t0, t, t, blacklist, front, f, now, row);
      }
    }
  }

  /** scan_run: walk, then sweep; a hard error leaves the table as it was. */
  ghost function ScanRun(t: Tracks, blacklist: set<Sha>, files: seq<Visit>, now: int, root: Path): Tracks {
    var walked := Walk(t, blacklist, files, now);
    if walked.None? then t else Sweep(walked.value, root, now)
  }

  /** The rows under root are one for each content among the counting files,
      each naming one of the files with that content, with that file's time and
      size, and the rows outside are as they were but for contents that turned
      up under root. */
  lemma ScanResult(t: Tracks, blacklist: set<Sha>, files: seq<Visit>, now: int, root: Path)
    requires Ordinary(t, blacklist, files, now, root) && Walk(t, blacklist, files, now).Some?
    ensures var u := ScanRun(t, blacklist, files, now, root);
            && UniquePaths(u)
            && (forall s :: (s in u && Under(root, u[s].path)) <==>
                  exists f :: f in files && Counts(f, blacklist) && f.content == s)
            && (forall s :: s in u && Under(root, u[s].path) ==> exists f :: Shows(files, blacklist, f, s, u[s]))
            && (forall s :: s in u && !Under(root, u[s].path) ==> s in t && t[s] == u[s])
            && (forall s :: s in t && !Under(root, t[s].path) ==> s in u)
  {
    WalkKeepsInv(t, blacklist, files, now, root);
    var w, u := Walk(t, blacklist, files, now).value, ScanRun(t, blacklist, files, now, root);
    forall s | s in u && Under(root, u[s].path) ensures exists f :: Shows(files, blacklist, f, s, u[s]) {
      assert w[s].seen == now;
    }
    forall f | f in files && Counts(f, blacklist) ensures f.content in u && Under(root, u[f.content].path) {
      var g :| Shows(files, blacklist, g, f.content, w[f.content]);
      var i :| 0 <= i < |files| && files[i] == g;
    }
    forall s
      ensures (s in u && Under(root, u[s].path)) <==> exists f :: f in files && Counts(f, blacklist) && f.content == s
    {
      if s in u && Under(root, u[s].path) {
        var f :| Shows(files, blacklist, f, s, u[s]);
      }
    }
    forall s | s in w && w[s].seen == now ensures Under(root, w[s].path) {
      var g :| Shows(files, blacklist, g, s, w[s]);
      var i :| 0 <= i < |files| && files[i] == g;
    }
    forall s | s in t && !Under(root, t[s].path) ensures s in u { OutsideStays(t, blacklist, files, now, root, s); }
  }

  // ---- what does not change is not read ------------------------------------

  /** The same files again, at a time when none of them can be read: neither
      their content nor the lack of it shows. */
  ghost predicate Again(files: seq<Visit>, again: seq<Visit>) {
    && |again| == |files|
    && forall i :: 0 <= i < |files| ==>
         && again[i].path == files[i].path && again[i].mtime == files[i].mtime && again[i].size == files[i].size
         && again[i].statOk && !again[i].hashOk && !again[i].dbFails
  }

  /** Row s names one of the files. */
  ghost predicate Names(t: Tracks, s: Sha, files: seq<Visit>) {
    s in t && exists i :: 0 <= i < |files| && files[i].path == t[s].path
  }

  /** The rows that do are marked, and nothing else changes. */
  ghost function Marked(t: Tracks, files: seq<Visit>, now: int): Tracks {
    map s | s in t :: if Names(t, s, files) then t[s].(seen := now) else t[s]
  }

  /** What a scan leaves under the path of a file it walked. */
  lemma RowOfFile(t: Tracks, blacklist: set<Sha>, files: seq<Visit>, now: int, root: Path, n: nat, s: Sha)
    requires Ordinary(t, blacklist, files, now, root) && Walk(t, blacklist, files, now).Some? && n < |files|
    requires var u := ScanRun(t, blacklist, files, now, root); s in u && u[s].path == files[n].path
    ensures var r, f := ScanRun(t, blacklist, files, now, root)[s], files[n];
            r.mtime == f.mtime && r.size == f.size && !IsArtifact(f.path)
  {
    var u := ScanRun(t, blacklist, files, now, root);
    ScanResult(t, blacklist, files, now, root);
    assert Under(root, u[s].path);
    var g :| Shows(files, blacklist, g, s, u[s]);
    var i :| 0 <= i < |files| && files[i] == g;
    assert i == n;
  }

  lemma MarkOne(u: Tracks, again: seq<Visit>, blacklist: set<Sha>, later: int, n: nat)
    requires UniquePaths(u) && n < |again| && again[n].statOk && !again[n].hashOk && !again[n].dbFails
    requires forall s :: Owns(u, s, again[n].path) ==> SameStat(u[s], again[n]) && !IsArtifact(again[n].path)
    ensures OnFile(Marked(u, again[..n], later), blacklist, again[n], later) == Some(Marked(u, again[..n + 1], later))
  {
    var longer := again[..n + 1];
    var f, t, v := again[n], Marked(u, again[..n], later), Marked(u, again[..n + 1], later);
    forall s | s in u
      ensures Names(u, s, again[..n + 1]) <==> Names(u, s, again[..n]) || u[s].path == f.path
      ensures Owns(t, s, f.path) <==> Owns(u, s, f.path)
    {
      if u[s].path == f.path { assert longer[n].path == u[s].path; }
      if Names(u, s, again[..n]) {
        var i :| 0 <= i < n && again[..n][i].path == u[s].path;
        assert longer[i].path == u[s].path;
      }
      if u[s].path != f.path && Names(u, s, longer) {
        var i :| 0 <= i < |longer| && longer[i].path == u[s].path;
        assert again[..n][i].path == u[s].path;
      }
    }
    var hit := OwnerOf(t, f.path);
    if hit.Some? {
      assert Owns(u, hit.value, f.path);
      assert v == t[hit.value := t[hit.value].(seen := later)];
    } else {
      forall s | s in u ensures u[s].path != f.path { assert !Owns(t, s, f.path); }
      assert v == t;
    }
  }

  lemma {:induction false} WalkAgain(t: Tracks, blacklist: set<Sha>, files: seq<Visit>, now: int, root: Path,
                                     again: seq<Visit>, later: int, n: nat)
    requires Ordinary(t, blacklist, files, now, root) && Walk(t, blacklist, files, now).Some?
    requires Again(files, again) && n <= |again|
    ensures var u := ScanRun(t, blacklist, files, now, root);
            Walk(u, blacklist, again[..n], later) == Some(Marked(u, again[..n], later))
  {
    var u := ScanRun(t, blacklist, files, now, root);
    if n == 0 {
      assert Marked(u, again[..0], later) == u;
    } else {
      WalkAgain(t, blacklist, files, now, root, again, later, n - 1);
      ScanResult(t, blacklist, files, now, root);
      assert again[..n][..n - 1] == again[..n - 1];
      forall s | Owns(u, s, again[n - 1].path)
        ensures SameStat(u[s], again[n - 1]) && !IsArtifact(again[n - 1].path)
      {
        RowOfFile(t, blacklist, files, now, root, n - 1, s);
      }
      MarkOne(u, again, blacklist, later, n - 1);
    }
  }

  /** After a scan, a scan of the same unchanged files opens none of them: it
      succeeds when no file can be read, marks every row that names one and
      changes nothing else. */
  lemma UnchangedNotRead(t: Tracks, blacklist: set<Sha>, files: seq<Visit>, now: int, root: Path, again: seq<Visit>,
                         later: int)
    requires Ordinary(t, blacklist, files, now, root) && Walk(t, blacklist, files, now).Some? && Again(files, again)
    ensures var u := ScanRun(t, blacklist, files, now, root);
            && Walk(u, blacklist, again, later) == Some(Marked(u, again, later))
            && ScanRun(u, blacklist, again, later, root) == Marked(u, again, later)
            && (forall s :: s in u && Under(root, u[s].path) ==>
                  ScanRun(u, blacklist, again, later, root)[s] == u[s].(seen := later))
  {
    var u := ScanRun(t, blacklist, files, now, root);
    WalkAgain(t, blacklist, files, now, root, again, later, |again|);
    assert again[..|again|] == again;
    ScanResult(t, blacklist, files, now, root);
    forall s | s in u && Under(root, u[s].path) ensures Names(u, s, again) {
      var g :| Shows(files, blacklist, g, s, u[s]);
      var i :| 0 <= i < |files| && files[i] == g;
      assert again[i].path == u[s].path;
    }
    NothingSwept(u, again, root, later);
  }

  lemma NothingSwept(u: Tracks, again: seq<Visit>, root: Path, later: int)
    requires forall s :: s in u && Under(root, u[s].path) ==> Names(u, s, again)
    ensures Sweep(Marked(u, again, later), root, later) == Marked(u, again, later)
  {
  }

  // ---- rows elsewhere ------------------------------------------------------

  /** A row outside root is never deleted. */
  lemma {:induction false} OutsideStays(t: Tracks, blacklist: set<Sha>, files: seq<Visit>, now: int, root: Path, s: Sha)
    requires Ordinary(t, blacklist, files, now, root)
    requires Walk(t, blacklist, files, now).Some? && s in t && !Under(root, t[s].path)
    ensures s in Walk(t, blacklist, files, now).value
  {
    if files == [] {
    } else {
      var front, f := files[..|files| - 1], files[|files| - 1];
      OrdinaryFront(t, blacklist, files, now, root);
      OutsideStays(t, blacklist, front, now, root, s);
      WalkKeepsInv(t, blacklist, front, now, root);
      var w := Walk(t, blacklist, front, now).value;
      assert Under(root, files[|files| - 1].path);
      NotTheRow(t, w, blacklist, front, f, now, root, s);
      OnlyOwnerGoes(w, blacklist, f, now, s);
    }
  }

  lemma NotTheRow(t: Tracks, w: Tracks, blacklist: set<Sha>, front: seq<Visit>, f: Visit, now: int, root: Path, s: Sha)
    requires WalkInv(t, w, blacklist, front, now) && s in t && !Under(root, t[s].path) && Under(root, f.path)
    requires forall g :: g in front ==> g.path != f.path
    ensures !Owns(w, s, f.path)
  {
    if s in w && w[s].seen == now {
      var g :| Shows(front, blacklist, g, s, w[s]);
    }
  }

  lemma OnlyOwnerGoes(w: Tracks, blacklist: set<Sha>, f: Visit, now: int, s: Sha)
    requires s in w && !Owns(w, s, f.path) && OnFile(w, blacklist, f, now).Some?
    ensures s in OnFile(w, blacklist, f, now).value
  {}

  /** A clash at the first file walked rolls the scan back, whatever the rest of
      the walk finds. */
  lemma FirstClashBlocks(t: Tracks, blacklist: set<Sha>, f: Visit, rest: seq<Visit>, now: int, root: Path)
    requires UniquePaths(t) && f.content in t && f.content !in blacklist
    requires !IsArtifact(f.path) && f.statOk && f.hashOk
    requires exists s :: Owns(t, s, f.path) && s != f.content && !SameStat(t[s], f)
    ensures ScanRun(t, blacklist, [f] + rest, now, root) == t
  {
    var s :| Owns(t, s, f.path) && s != f.content && !SameStat(t[s], f);
    assert OwnerOf(t, f.path) == Some(s);
    FailureSticks(t, blacklist, f, rest, now);
  }

  lemma {:induction false} FailureSticks(t: Tracks, blacklist: set<Sha>, f: Visit, rest: seq<Visit>, now: int)
    requires OnFile(t, blacklist, f, now).None?
    ensures Walk(t, blacklist, [f] + rest, now).None?
    decreases |rest|
  {
    var files := [f] + rest;
    if rest == [] {
      assert files[..0] == [];
    } else {
      assert files[..|files| - 1] == [f] + rest[..|rest| - 1];
      FailureSticks(t, blacklist, f, rest[..|rest| - 1], now);
    }
  }

  // ---- as it runs ----------------------------------------------------------

  function Bump(b: bool): nat { if b then 1 else 0 }

  /** The file handled after i others fails to stat, or has changed and fails to
      hash. */
  ghost predicate CannotHash(t: Tracks, blacklist: set<Sha>, files: seq<Visit>, now: int, i: nat)
    requires i < |files|
  {
    var met := Walk(t, blacklist, files[..i], now);
    && met.Some? && !IsArtifact(files[i].path)
    && (!files[i].statOk || (!Scanner.Unchanged(met.value, files[i]) && !files[i].hashOk))
  }

  ghost predicate SomeCannot(t: Tracks, blacklist: set<Sha>, files: seq<Visit>, now: int, n: nat)
    requires n <= |files|
  {
    exists i: nat :: i < n && CannotHash(t, blacklist, files, now, i)
  }

  lemma SomeNext(t: Tracks, blacklist: set<Sha>, files: seq<Visit>, now: int, n: nat)
    requires n < |files|
    ensures SomeCannot(t, blacklist, files, now, n + 1) <==>
            SomeCannot(t, blacklist, files, now, n) || CannotHash(t, blacklist, files, now, n)
  {
  }

  datatype Stats = Stats(seen: nat, skipped: nat, hashFailed: nat, refused: nat, updated: nat, added: nat)

  class Scanner {
    var tracks: Tracks
    const blacklist: set<Sha>
    var stats: Stats

    constructor (tracks: Tracks, blacklist: set<Sha>)
      ensures this.tracks == tracks && this.blacklist == blacklist
    {
      this.tracks, this.blacklist := tracks, blacklist;
      stats := Stats(0, 0, 0, 0, 0, 0);
    }

    /** The row of the file's path still has its time and size. */
    static ghost predicate Unchanged(t: Tracks, f: Visit) {
      exists s :: Owns(t, s, f.path) && t[s].mtime == f.mtime && t[s].size == f.size
    }

    /** Every file handled is counted once. */
    predicate Balanced() reads this {
      stats.seen == stats.skipped + stats.hashFailed + stats.refused + stats.updated + stats.added
    }

    method LookupByPath(p: Path) returns (hit: Option<Sha>)
      requires UniquePaths(tracks)
      ensures hit == OwnerOf(tracks, p)
    {
      if s :| s in tracks && tracks[s].path == p {
        assert Owns(tracks, s, p);
        hit := Some(s);
      } else {
        assert forall s :: !Owns(tracks, s, p);
        hit := None;
      }
    }

    /** The row of a new or changed file. */
    method Write(f: Visit, hit: Option<Sha>, now: int) returns (ok: bool)
      requires UniquePaths(tracks) && hit == OwnerOf(tracks, f.path)
      requires !IsArtifact(f.path) && f.statOk && !f.dbFails && f.hashOk && f.content !in blacklist
      requires hit.Some? ==> !SameStat(tracks[hit.value], f)
      modifies this
      ensures var next := OnFile(old(tracks), blacklist, f, now);
              ok == next.Some? && (ok ==> tracks == next.value && UniquePaths(tracks))
      ensures ok ==> |tracks| == |old(tracks)| + (stats.added - old(stats.added))
      ensures ok ==> stats.updated + stats.added == old(stats.updated + stats.added) + 1
      ensures stats == old(stats).(updated := stats.updated, added := stats.added)
    {
      var row := Row(f.path, f.mtime, f.size, now);
      forall s | s in tracks && tracks[s].path == f.path ensures hit == Some(s) { assert Owns(tracks, s, f.path); }
      if f.content in tracks {
        if hit.Some? && hit.value != f.content { return false; }
        stats := stats.(updated := stats.updated + 1);
        assert tracks[f.content := row].Keys == tracks.Keys;
      } else if hit.Some? {
        tracks := tracks - {hit.value};
        stats := stats.(updated := stats.updated + 1);
      } else {
        stats := stats.(added := stats.added + 1);
      }
      tracks := tracks[f.content := row];
      return true;
    }

    method HandleFile(f: Visit, now: int) returns (ok: bool)
      requires UniquePaths(tracks) && Balanced()
      modifies this
      ensures var next := OnFile(old(tracks), blacklist, f, now);
              ok == next.Some? && (ok ==> tracks == next.value && UniquePaths(tracks) && Balanced())
      ensures ok ==> |tracks| == |old(tracks)| + (stats.added - old(stats.added))
      ensures var visible, same := !IsArtifact(f.path), Unchanged(old(tracks), f);
              ok ==>
                && stats.seen == old(stats.seen) + Bump(visible)
                && stats.skipped == old(stats.skipped) + Bump(visible && f.statOk && same)
                && stats.hashFailed == old(stats.hashFailed) + Bump(visible && (!f.statOk || (!same && !f.hashOk)))
                && stats.refused == old(stats.refused)
                                    + Bump(visible && f.statOk && !same && f.hashOk && f.content in blacklist)
    {
      if IsArtifact(f.path) { return true; }
      stats := stats.(seen := stats.seen + 1);
      if !f.statOk {
        stats := stats.(hashFailed := stats.hashFailed + 1);
        return true;
      }
      if f.dbFails { return false; }
      var hit := LookupByPath(f.path);
      assert Unchanged(tracks, f) <==>
             hit.Some? && tracks[hit.value].mtime == f.mtime && tracks[hit.value].size == f.size;
      if hit.Some? && SameStat(tracks[hit.value], f) {
        tracks := tracks[hit.value := tracks[hit.value].(seen := now)];
        stats := stats.(skipped := stats.skipped + 1);
        return true;
      }
      if !f.hashOk {
        stats := stats.(hashFailed := stats.hashFailed + 1);
        return true;
      }
      if f.content in blacklist {
        stats := stats.(refused := stats.refused + 1);
        return true;
      }
      ok := Write(f, hit, now);
    }

    /** The walk of before has come past n files. */
    ghost predicate Walked(before: Tracks, files: seq<Visit>, now: int, n: nat)
      requires n <= |files|
      reads this
    {
      && Walk(before, blacklist, files[..n], now) == Some(tracks) && UniquePaths(tracks) && Balanced()
      && |tracks| == |before| + stats.added
      && (stats.hashFailed > 0 <==> SomeCannot(before, blacklist, files, now, n))
    }

    method HandleNext(ghost before: Tracks, files: seq<Visit>, i: nat, now: int) returns (ok: bool)
      requires i < |files| && Walked(before, files, now, i)
      modifies this
      ensures if ok then Walked(before, files, now, i + 1)
              else OnFile(old(tracks), blacklist, files[i], now).None?
    {
      assert files[..i + 1][..i] == files[..i];
      SomeNext(before, blacklist, files, now, i);
      ghost var failed := CannotHash(before, blacklist, files, now, i);
      assert failed <==> !IsArtifact(files[i].path)
                         && (!files[i].statOk || (!Unchanged(tracks, files[i]) && !files[i].hashOk));
      ok := HandleFile(files[i], now);
    }

    /** scan_run, in a transaction: on failure the table is as it was. */
    method Run(files: seq<Visit>, now: int, root: Path) returns (rc: int)
      requires UniquePaths(tracks)
      modifies this
      ensures tracks == ScanRun(old(tracks), blacklist, files, now, root)
      ensures rc == -1 <==> Walk(old(tracks), blacklist, files, now).None?
      ensures rc != -1 ==> Balanced()
      ensures rc == 1 <==> Walk(old(tracks), blacklist, files, now).Some?
                           && SomeCannot(old(tracks), blacklist, files, now, |files|)
      ensures rc != -1 ==> |Walk(old(tracks), blacklist, files, now).value| == |old(tracks)| + stats.added
    {
      var before := tracks;
      stats := Stats(0, 0, 0, 0, 0, 0);
      for i := 0 to |files|
        invariant Walked(before, files, now, i)
      {
        var ok := HandleNext(before, files, i, now);
        if !ok {
          WalkStops(before, blacklist, files, now, i);
          tracks := before;
          return -1;
        }
      }
      assert files[..|files|] == files;
      tracks := Sweep(tracks, root, now);
      return if stats.hashFailed > 0 then 1 else 0;
    }
  }

  lemma WalkStopped(t: Tracks, blacklist: set<Sha>, files: seq<Visit>, now: int)
    requires files != [] && Walk(t, blacklist, files[..|files| - 1], now).None?
    ensures Walk(t, blacklist, files, now).None?
  {}

  lemma {:induction false} WalkStops(t: Tracks, blacklist: set<Sha>, files: seq<Visit>, now: int, i: nat)
    requires i < |files| && Walk(t, blacklist, files[..i], now).Some?
    requires OnFile(Walk(t, blacklist, files[..i], now).value, blacklist, files[i], now).None?
    ensures Walk(t, blacklist, files, now).None?
    decreases |files|
  {
    var n := |files| - 1;
    if i < n {
      assert files[..n][..i] == files[..i];
      WalkStops(t, blacklist, files[..n], now, i);
      WalkStopped(t, blacklist, files, now);
    }
  }
}
