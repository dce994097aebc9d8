/** The scan step in front of the rotation: what scan.c leaves in tracks is
    what the recovery of a crashed rotation needs. */
module Cycle {
  import opened Prelude
  import opened Paths
  import opened Jobs
  import opened Rotate
  import opened RotatePlan
  import opened Recovery
  import opened Rerun
  import Scan
  import ScanFailure

  /** The paths of the scan's table. */
  function PathsOf(t: Scan.Tracks): map<Sha, Path> { map s | s in t :: t[s].path }

  /** The world with the table a scan left. Deleting a row of tracks deletes its
      residency row; of a library, only the sweep deletes rows
      (WalkDeletesNothing). */
  function WithTable(w: World, t: Scan.Tracks): World {
    w.(tracks := PathsOf(t), residency := Cascade(w.residency, PathsOf(t)))
  }

  /** The walk finds every name on the disk once, and hashes what is there; an
      unfinished copy hashes to something that is no track of the library. */
  ghost predicate WalksDisk(lib: Library, w: World, files: seq<Scan.Visit>) {
    && (forall p :: p in w.names ==> exists i :: 0 <= i < |files| && files[i].path == p)
    && (forall i :: 0 <= i < |files| ==>
          && files[i].path in w.names
          && (w.names[files[i].path].data.Audio? ==> files[i].content == w.names[files[i].path].data.sha)
          && (w.names[files[i].path].data.Partial? ==> files[i].content !in lib.tails))
  }

  /** A row of the scanned table names a file with the row's content. */
  ghost predicate RowShows(lib: Library, w: World, s: Sha, p: Path) {
    && p in w.names
    && (w.names[p].data.Audio? ==> w.names[p].data.sha == s)
    && (w.names[p].data.Partial? ==> s !in lib.tails)
  }

  lemma RowShown(lib: Library, w: World, blacklist: set<Sha>, files: seq<Scan.Visit>, f: Scan.Visit, s: Sha,
                 r: Scan.Row)
    requires WalksDisk(lib, w, files) && Scan.Shows(files, blacklist, f, s, r)
    ensures RowShows(lib, w, s, r.path)
  {
    var i :| 0 <= i < |files| && files[i] == f;
  }

  /** The scan sees the track: a home holds its content and does not look like a
      transcode, which every .opus, .m4a and .aac under resident/ does. */
  predicate Visible(lib: Library, w: World, s: Sha)
    requires s in lib.tails
  {
    || (Holds(Lookup(w, Home(lib, s, Archive)), s) && !Scan.IsArtifact(Home(lib, s, Archive)))
    || (Holds(Lookup(w, Home(lib, s, Resident)), s) && !Scan.IsArtifact(Home(lib, s, Resident)))
  }

  lemma VisibleShown(lib: Library, w: World, blacklist: set<Sha>, files: seq<Scan.Visit>, s: Sha)
    requires WalksDisk(lib, w, files) && s in lib.tails && s !in blacklist && Visible(lib, w, s)
    ensures exists f :: f in files && Scan.Counts(f, blacklist) && f.content == s
  {
    var home := if Holds(Lookup(w, Home(lib, s, Archive)), s) && !Scan.IsArtifact(Home(lib, s, Archive))
      then Home(lib, s, Archive) else Home(lib, s, Resident);
    var i :| 0 <= i < |files| && files[i].path == home;
    assert files[i] in files && Scan.Counts(files[i], blacklist);
  }

  lemma ShownVisible(lib: Library, w: World, blacklist: set<Sha>, files: seq<Scan.Visit>, f: Scan.Visit)
    requires Inv(lib, w) && WalksDisk(lib, w, files)
    requires f in files && Scan.Counts(f, blacklist) && f.content in lib.tails
    ensures Visible(lib, w, f.content)
  {
    var i :| 0 <= i < |files| && files[i] == f;
    assert AtHome(lib, w, f.path);
  }

  lemma TrackShown(lib: Library, w: World, blacklist: set<Sha>, files: seq<Scan.Visit>, s: Sha)
    requires Inv(lib, w) && WalksDisk(lib, w, files) && s in lib.tails && s !in blacklist
    ensures (exists f :: f in files && Scan.Counts(f, blacklist) && f.content == s) <==> Visible(lib, w, s)
  {
    if Visible(lib, w, s) { VisibleShown(lib, w, blacklist, files, s); }
    if f :| f in files && Scan.Counts(f, blacklist) && f.content == s { ShownVisible(lib, w, blacklist, files, f); }
  }

  /** A library without such homes is always seen. */
  lemma AlwaysVisible(lib: Library, w: World, s: Sha)
    requires Inv(lib, w) && s in lib.tails
    requires !Scan.IsArtifact(Home(lib, s, Archive)) && !Scan.IsArtifact(Home(lib, s, Resident))
    ensures Visible(lib, w, s)
  {
    assert Ok(lib, w, s);
  }

  lemma ShownAtHome(lib: Library, w: World, s: Sha, p: Path)
    requires AtHome(lib, w, p) && RowShows(lib, w, s, p)
    ensures s in lib.tails ==> IsHome(lib, s, p) && Holds(Lookup(w, p), s)
    ensures s !in lib.tails ==> p in w.names && w.names[p].data == Partial
  {}

  /** Every row a scan leaves shows its content. */
  lemma ScannedRows(lib: Library, w: World, t: Scan.Tracks, blacklist: set<Sha>, files: seq<Scan.Visit>, now: int,
                    s: Sha)
    requires WalksDisk(lib, w, files) && forall r :: r in t ==> Scan.Under(lib.root, t[r].path)
    requires Scan.Ordinary(t, blacklist, files, now, lib.root) && Scan.Walk(t, blacklist, files, now).Some?
    ensures var u := Scan.ScanRun(t, blacklist, files, now, lib.root);
            && (s in u ==> RowShows(lib, w, s, u[s].path))
            && (s in u <==> exists f :: f in files && Scan.Counts(f, blacklist) && f.content == s)
  {
    var u := Scan.ScanRun(t, blacklist, files, now, lib.root);
    Scan.ScanResult(t, blacklist, files, now, lib.root);
    if s in u {
      assert Scan.Under(lib.root, u[s].path);
      var f :| Scan.Shows(files, blacklist, f, s, u[s]);
      RowShown(lib, w, blacklist, files, f, s, u[s]);
    }
  }

  /** A successful scan after any history keeps a track exactly when it sees it;
      of any other it drops the row. */
  lemma ScanKeepsExactly(lib: Library, w: World, t: Scan.Tracks, blacklist: set<Sha>, files: seq<Scan.Visit>, now: int,
                         x: World, s: Sha)
    requires Inv(lib, w) && WalksDisk(lib, w, files) && s in lib.tails && s !in blacklist
    requires Scan.Ordinary(t, blacklist, files, now, lib.root) && Scan.Walk(t, blacklist, files, now).Some?
    requires forall r :: r in t ==> Scan.Under(lib.root, t[r].path)
    requires x == WithTable(w, Scan.ScanRun(t, blacklist, files, now, lib.root))
    ensures if Visible(lib, w, s) then RowKept(lib, x, s) else s !in x.tracks
  {
    ScannedRows(lib, w, t, blacklist, files, now, s);
    TrackShown(lib, w, blacklist, files, s);
    if s in x.tracks {
      assert AtHome(lib, w, x.tracks[s]);
      ShownAtHome(lib, w, s, x.tracks[s]);
    }
  }

  /** So it is a rescan in the sense of the recovery results, which leaves the
      tracks it sees. */
  lemma ScanRescans(lib: Library, w: World, t: Scan.Tracks, blacklist: set<Sha>, files: seq<Scan.Visit>, now: int,
                    x: World)
    requires Inv(lib, w) && WalksDisk(lib, w, files)
    requires Scan.Ordinary(t, blacklist, files, now, lib.root) && Scan.Walk(t, blacklist, files, now).Some?
    requires forall s :: s in t ==> Scan.Under(lib.root, t[s].path)
    requires x == WithTable(w, Scan.ScanRun(t, blacklist, files, now, lib.root))
    ensures Rescanned(lib, w, x)
    ensures forall s :: s in lib.tails && s !in blacklist ==> (s in x.tracks <==> Visible(lib, w, s))
  {
    forall s | s in x.tracks
      ensures s in lib.tails ==> RowKept(lib, x, s)
      ensures s !in lib.tails ==> x.tracks[s] in x.names && x.names[x.tracks[s]].data == Partial
    {
      ScannedRows(lib, w, t, blacklist, files, now, s);
      assert AtHome(lib, w, x.tracks[s]);
      ShownAtHome(lib, w, s, x.tracks[s]);
    }
    forall s | s in lib.tails && s !in blacklist ensures s in x.tracks <==> Visible(lib, w, s) {
      ScanKeepsExactly(lib, w, t, blacklist, files, now, x, s);
    }
  }

  // ---- the scan of a library goes through ----------------------------------

  /** The table is the one the world's rows come from, and an unfinished copy
      that has a row still hashes to it. */
  ghost predicate TableOf(lib: Library, w: World, t: Scan.Tracks, files: seq<Scan.Visit>) {
    && PathsOf(t) == w.tracks
    && (forall i, o :: 0 <= i < |files| && o !in lib.tails && Scan.Owns(t, o, files[i].path) ==> files[i].content == o)
  }

  lemma RowsUnderRoot(lib: Library, w: World, t: Scan.Tracks, blacklist: set<Sha>, files: seq<Scan.Visit>, now: int)
    requires Inv(lib, w) && WalksDisk(lib, w, files) && TableOf(lib, w, t, files)
    requires Scan.Ordinary(t, blacklist, files, now, lib.root)
    ensures w.tracks.Keys !! blacklist && forall r :: r in t ==> Scan.Under(lib.root, t[r].path)
  {
    forall s | s in w.tracks ensures s !in blacklist { assert s in PathsOf(t); }
    forall r | r in t ensures Scan.Under(lib.root, t[r].path) {
      assert r in w.tracks && w.tracks[r] == t[r].path;
      if r in lib.tails {
        assert Ok(lib, w, r);
        HomeUnder(lib, r, Archive);
        HomeUnder(lib, r, Resident);
      } else {
        var i :| 0 <= i < |files| && files[i].path == w.tracks[r];
      }
    }
  }

  lemma HomeUnder(lib: Library, s: Sha, l: Location)
    requires s in lib.tails
    ensures Scan.Under(lib.root, Home(lib, s, l))
  {
    var segment := if l.Resident? then "resident" else "archive";
    assert Home(lib, s, l) == lib.root + "/" + (segment + "/" + lib.tails[s]);
  }

  lemma RowsNameContents(lib: Library, w: World, t: Scan.Tracks, files: seq<Scan.Visit>)
    requires Inv(lib, w) && WalksDisk(lib, w, files) && TableOf(lib, w, t, files)
    ensures forall i, s :: 0 <= i < |files| && Scan.Owns(t, s, files[i].path) ==> s == files[i].content
  {
    forall i, s | 0 <= i < |files| && Scan.Owns(t, s, files[i].path) ensures s == files[i].content {
      assert s in PathsOf(t) && w.tracks[s] == files[i].path;
      if s in lib.tails { assert Ok(lib, w, s); }
    }
  }

  /** No two rows can clash: a row that names a file names its content. */
  lemma ScanSucceeds(lib: Library, w: World, t: Scan.Tracks, blacklist: set<Sha>, files: seq<Scan.Visit>, now: int)
    requires Inv(lib, w) && WalksDisk(lib, w, files) && TableOf(lib, w, t, files)
    requires Scan.Ordinary(t, blacklist, files, now, lib.root)
    ensures Scan.Walk(t, blacklist, files, now).None? <==> exists i :: 0 <= i < |files| && ScanFailure.DbFault(files, i)
  {
    ScanFailure.WalkFailsExactly(t, blacklist, files, now, lib.root);
    RowsNameContents(lib, w, t, files);
    forall i | 0 <= i < |files| ensures ScanFailure.Stops(t, blacklist, files, i) <==> ScanFailure.DbFault(files, i) {}
  }

  /** Part way through, the row at the path of a file not walked yet is still
      the one the walk began with. */
  lemma RowStillThere(t: Scan.Tracks, u: Scan.Tracks, blacklist: set<Sha>, front: seq<Scan.Visit>, f: Scan.Visit,
                      now: int, o: Sha)
    requires Scan.WalkInv(t, u, blacklist, front, now) && Scan.Owns(u, o, f.path)
    requires forall g :: g in front ==> g.path != f.path
    ensures Scan.Owns(t, o, f.path)
  {
    assert u[o].seen != now;
  }

  /** A walk at whose files every row names its content deletes no row. */
  lemma {:induction false} WalkDeletesNothing(t: Scan.Tracks, blacklist: set<Sha>, files: seq<Scan.Visit>, now: int,
                                              root: Path)
    requires Scan.Ordinary(t, blacklist, files, now, root) && Scan.Walk(t, blacklist, files, now).Some?
    requires forall i, s :: 0 <= i < |files| && Scan.Owns(t, s, files[i].path) ==> s == files[i].content
    ensures t.Keys <= Scan.Walk(t, blacklist, files, now).value.Keys
  {
    if files == [] {
    } else {
      var front, f := files[..|files| - 1], files[|files| - 1];
      Scan.OrdinaryFront(t, blacklist, files, now, root);
      assert forall i :: 0 <= i < |front| ==> front[i] == files[i];
      WalkDeletesNothing(t, blacklist, front, now, root);
      Scan.WalkKeepsInv(t, blacklist, front, now, root);
      var u := Scan.Walk(t, blacklist, front, now).value;
      forall o | Scan.Owns(u, o, f.path) ensures o == f.content {
        RowStillThere(t, u, blacklist, front, f, now, o);
        assert Scan.Owns(t, o, files[|files| - 1].path);
      }
    }
  }

  // ---- the next cycle ------------------------------------------------------

  /** A rotation may stop in any state, whatever calls but the unlink of s
      fail, and the scan of the next cycle reads what it left. */
  ghost predicate CrashAndScan(lib: Library, w: World, manifest: set<Sha>, jobs: seq<Job>, st: Stats, crashed: World,
                               t: Scan.Tracks, blacklist: set<Sha>, files: seq<Scan.Visit>, now: int, s: Sha) {
    && Settled(lib, w, s) && manifest <= lib.tails.Keys && Plan(w, manifest, jobs)
    && (forall i :: 0 <= i < |jobs| && jobs[i].sha == s ==> !jobs[i].faults.unlink)
    && crashed in Run(lib.root, w, jobs, st).trace
    && WalksDisk(lib, crashed, files) && TableOf(lib, crashed, t, files)
    && Scan.Ordinary(t, blacklist, files, now, lib.root)
    && (forall i :: 0 <= i < |files| ==> !ScanFailure.DbFault(files, i))
  }

  /** That scan succeeds, and keeps the track exactly if it sees it. */
  lemma ScanAfterCrash(lib: Library, w: World, manifest: set<Sha>, jobs: seq<Job>, st: Stats, crashed: World,
                       t: Scan.Tracks, blacklist: set<Sha>, files: seq<Scan.Visit>, now: int, scanned: World, s: Sha)
    requires CrashAndScan(lib, w, manifest, jobs, st, crashed, t, blacklist, files, now, s)
    requires scanned == WithTable(crashed, Scan.ScanRun(t, blacklist, files, now, lib.root))
    ensures Scan.Walk(t, blacklist, files, now).Some? && Rescanned(lib, crashed, scanned)
    ensures s in scanned.tracks <==> Visible(lib, crashed, s)
  {
    PlanKnown(lib, w, manifest, jobs);
    RunKeepsInv(lib, w, jobs, st, crashed);
    RowsUnderRoot(lib, crashed, t, blacklist, files, now);
    ScanSucceeds(lib, crashed, t, blacklist, files, now);
    ScanRescans(lib, crashed, t, blacklist, files, now, scanned);
  }

  /** The next cycle puts a track right that its scan sees, whatever becomes of
      the others, if its rotation still wants the track where it was wanted and
      counts no error for it. */
  lemma NextCycleRecovers(lib: Library, w: World, manifest: set<Sha>, jobs: seq<Job>, st: Stats, crashed: World,
                          t: Scan.Tracks, blacklist: set<Sha>, files: seq<Scan.Visit>, now: int,
                          scanned: World, again: set<Sha>, rerun: seq<Job>, st2: Stats, s: Sha)
    requires CrashAndScan(lib, w, manifest, jobs, st, crashed, t, blacklist, files, now, s)
    requires scanned == WithTable(crashed, Scan.ScanRun(t, blacklist, files, now, lib.root))
    requires Visible(lib, crashed, s)
    requires again <= lib.tails.Keys && (s in again <==> s in manifest) && Plan(scanned, again, rerun)
    requires CleanFor(lib.root, scanned, rerun, st2, s)
    ensures Good(See(lib, Run(lib.root, scanned, rerun, st2).Final(), s), s, Wanted(manifest, s))
  {
    ScanAfterCrash(lib, w, manifest, jobs, st, crashed, t, blacklist, files, now, scanned, s);
    OneCrash(lib, w, manifest, jobs, st, crashed, scanned, again, rerun, st2, s);
  }

  /** If the track was not copied across devices, no error can be counted for it
      unless a call fails. */
  lemma NextCycleSameDevice(lib: Library, w: World, manifest: set<Sha>, jobs: seq<Job>, st: Stats, crashed: World,
                            t: Scan.Tracks, blacklist: set<Sha>, files: seq<Scan.Visit>, now: int,
                            scanned: World, again: set<Sha>, rerun: seq<Job>, st2: Stats, s: Sha)
    requires CrashAndScan(lib, w, manifest, jobs, st, crashed, t, blacklist, files, now, s) && SameDevice(jobs, s)
    requires scanned == WithTable(crashed, Scan.ScanRun(t, blacklist, files, now, lib.root))
    requires Visible(lib, crashed, s)
    requires again <= lib.tails.Keys && (s in again <==> s in manifest) && Plan(scanned, again, rerun)
    requires WorksFor(rerun, s)
    ensures CleanFor(lib.root, scanned, rerun, st2, s)
    ensures Good(See(lib, Run(lib.root, scanned, rerun, st2).Final(), s), s, Wanted(manifest, s))
  {
    ScanAfterCrash(lib, w, manifest, jobs, st, crashed, t, blacklist, files, now, scanned, s);
    OneCrashSameDevice(lib, w, manifest, jobs, st, crashed, scanned, again, rerun, st2, s);
  }

  // ---- originals the scan takes for transcodes -----------------------------

  predicate TranscodeTail(tail: string) {
    var low := Scan.Lower(tail);
    Scan.EndsWith(low, ".opus") || Scan.EndsWith(low, ".m4a") || Scan.EndsWith(low, ".aac")
  }

  lemma LowerEnds(front: string, tail: string, suffix: string)
    requires Scan.EndsWith(Scan.Lower(tail), suffix)
    ensures Scan.EndsWith(Scan.Lower(front + tail), suffix)
  {
    assert Scan.Lower(front + tail) == Scan.Lower(front) + Scan.Lower(tail);
    var a, b := Scan.Lower(front + tail), Scan.Lower(tail);
    assert a[|a| - |suffix|..] == b[|b| - |suffix|..];
  }

  lemma {:induction false} ContainsLater(front: string, part: string, rest: string)
    ensures Scan.Contains(front + (part + rest), part)
    decreases |front|
  {
    if front == "" {
      assert front + (part + rest) == part + rest;
    } else {
      assert (front + (part + rest))[1..] == front[1..] + (part + rest);
      ContainsLater(front[1..], part, rest);
    }
  }

  lemma ResidentArtifact(root: string, tail: string)
    requires TranscodeTail(tail)
    ensures Scan.IsArtifact(At(root, "resident", tail))
  {
    var path := At(root, "resident", tail);
    assert path == root + ("/resident/" + tail) == (root + "/resident/") + tail;
    ContainsLater(root, "/resident/", tail);
    forall suffix | Scan.EndsWith(Scan.Lower(tail), suffix) ensures Scan.EndsWith(Scan.Lower(path), suffix) {
      LowerEnds(root + "/resident/", tail, suffix);
    }
  }

  /** A resident original with one of those extensions is forgotten by the next
      scan, and no rotation can move it again. */
  lemma ResidentOriginalForgotten(lib: Library, w: World, t: Scan.Tracks, blacklist: set<Sha>, files: seq<Scan.Visit>,
                                  now: int, x: World, s: Sha, d: Direction, f: Faults, st: Stats)
    requires Settled(lib, w, s) && TranscodeTail(lib.tails[s]) && See(lib, w, s).side == Resident
    requires WalksDisk(lib, w, files) && TableOf(lib, w, t, files)
    requires Scan.Ordinary(t, blacklist, files, now, lib.root) && Scan.Walk(t, blacklist, files, now).Some?
    requires x == WithTable(w, Scan.ScanRun(t, blacklist, files, now, lib.root))
    ensures s !in x.tracks
    ensures MoveOne(lib.root, x, Job(s, d, f), st).Final() == x
    ensures MoveOne(lib.root, x, Job(s, d, f), st).stats.errors == st.errors + 1
  {
    ResidentArtifact(lib.root, lib.tails[s]);
    RowsUnderRoot(lib, w, t, blacklist, files, now);
    ScanKeepsExactly(lib, w, t, blacklist, files, now, x, s);
  }

  // A settled library of one resident track, a.m4a.
  const M4A := Library("/m", map["s" := "a.m4a"])
  const M4A_HOME := Home(M4A, "s", Resident)
  const M4A_WORLD := World(map[M4A_HOME := File(0, Audio("s"))], 1, map["s" := M4A_HOME], map["s" := Resident])
  const M4A_TABLE: Scan.Tracks := map["s" := Scan.Row(M4A_HOME, 0, 0, 0)]
  const M4A_WALK := [Scan.Visit(M4A_HOME, true, 0, 0, true, "s", false)]

  lemma M4aTail()
    ensures TranscodeTail("a.m4a")
  {
    assert Scan.Lower("a.m4a") == "a.m4a";
    assert "a.m4a"[1..] == ".m4a";
  }

  lemma M4aSettled()
    ensures Settled(M4A, M4A_WORLD, "s")
  {
    HomeSwap(M4A, "s", Promote);
    assert See(M4A, M4A_WORLD, "s") == View(Resident, true, None, Some(File(0, Audio("s"))));
  }

  lemma M4aSetting()
    ensures WalksDisk(M4A, M4A_WORLD, M4A_WALK) && TableOf(M4A, M4A_WORLD, M4A_TABLE, M4A_WALK)
  {
    assert M4A_WALK[0].path == M4A_HOME;
    assert PathsOf(M4A_TABLE) == map["s" := M4A_HOME];
  }

  lemma M4aOrdinary()
    ensures Scan.Ordinary(M4A_TABLE, {}, M4A_WALK, 1, "/m")
  {
    HomeUnder(M4A, "s", Resident);
  }

  /** The input on which a cycle loses a track although nothing fails. */
  lemma M4aForgotten()
    ensures Settled(M4A, M4A_WORLD, "s") && WalksDisk(M4A, M4A_WORLD, M4A_WALK)
    ensures TableOf(M4A, M4A_WORLD, M4A_TABLE, M4A_WALK)
    ensures Scan.Ordinary(M4A_TABLE, {}, M4A_WALK, 1, "/m") && Scan.Walk(M4A_TABLE, {}, M4A_WALK, 1).Some?
    ensures Scan.ScanRun(M4A_TABLE, {}, M4A_WALK, 1, "/m") == map[]
  {
    M4aSettled();
    M4aSetting();
    M4aOrdinary();
    M4aTail();
    ScanSucceeds(M4A, M4A_WORLD, M4A_TABLE, {}, M4A_WALK, 1);
    ResidentArtifact("/m", "a.m4a");
    RowsUnderRoot(M4A, M4A_WORLD, M4A_TABLE, {}, M4A_WALK, 1);
    forall r ensures r !in Scan.ScanRun(M4A_TABLE, {}, M4A_WALK, 1, "/m") {
      ScannedRows(M4A, M4A_WORLD, M4A_TABLE, {}, M4A_WALK, 1, r);
      assert forall f :: f in M4A_WALK ==> !Scan.Counts(f, {});
    }
  }

  // ---- the walk order decides ----------------------------------------------

  /** Two walks meet the same contents at the same paths in the same order. */
  ghost predicate SameWalk(files: seq<Scan.Visit>, again: seq<Scan.Visit>) {
    && |again| == |files|
    && forall i :: 0 <= i < |files| ==> again[i].path == files[i].path && again[i].content == files[i].content
  }

  /** As long as the order stays, a row goes on naming the same place. */
  lemma SameOrderSamePlace(t: Scan.Tracks, u: Scan.Tracks, blacklist: set<Sha>, files: seq<Scan.Visit>,
                           again: seq<Scan.Visit>,
                           now: int, later: int, root: Path, i: nat)
    requires Scan.Ordinary(t, blacklist, files, now, root) && Scan.Walk(t, blacklist, files, now).Some?
    requires Scan.Ordinary(u, blacklist, again, later, root) && Scan.Walk(u, blacklist, again, later).Some?
    requires SameWalk(files, again) && i < |files| && ScanFailure.LastWith(files, blacklist, i, |files|)
    ensures Scan.Owns(Scan.ScanRun(t, blacklist, files, now, root), files[i].content, files[i].path)
    ensures Scan.Owns(Scan.ScanRun(u, blacklist, again, later, root), files[i].content, files[i].path)
  {
    ScanFailure.LastVisitWins(t, blacklist, files, now, root, i);
    ScanFailure.LastVisitWins(u, blacklist, again, later, root, i);
  }

  // The two names of the crashed rotation of Rerun, as a walk finds them.
  const VISIT_A := Scan.Visit(ARCHIVED, true, 0, 0, true, "s", false)
  const VISIT_K := Scan.Visit(KEPT, true, 0, 0, true, "s", false)
  const FIRST: Scan.Tracks := map["s" := Scan.Row(ARCHIVED, 0, 0, 0)]

  lemma FlacVisible(path: string)
    requires |path| > 5 && path[|path| - 5..] == ".flac"
    ensures !Scan.IsArtifact(path)
  {
    var low := Scan.Lower(path);
    assert low[|low| - 5..] == ".flac" by {
      assert forall k :: 0 <= k < 5 ==> low[|low| - 5..][k] == ".flac"[k];
    }
    assert low[|low| - 1] == 'c' && low[|low| - 4] == 'f';
  }

  lemma FlacHomeSeen(root: string, segment: string)
    ensures !Scan.IsArtifact(At(root, segment, "a.flac"))
  {
    var path := At(root, segment, "a.flac");
    assert path == (root + "/" + segment + "/") + "a.flac";
    assert "a.flac"[1..] == ".flac" && path[|path| - 5..] == "a.flac"[1..];
    FlacVisible(path);
  }

  lemma NamesSeen()
    ensures ARCHIVED != KEPT && Scan.Counts(VISIT_A, {}) && Scan.Counts(VISIT_K, {})
    ensures Scan.Under("/m", ARCHIVED) && Scan.Under("/m", KEPT)
  {
    HomeSwap(LIB, "s", Promote);
    HomeUnder(LIB, "s", Archive);
    HomeUnder(LIB, "s", Resident);
    FlacHomeSeen("/m", "archive");
    FlacHomeSeen("/m", "resident");
  }

  lemma NamesOrdinary(t: Scan.Tracks, now: int, a: Scan.Visit, b: Scan.Visit, root: Path)
    requires t.Keys == {a.content} && t[a.content].seen < now && b.content == a.content && a.path != b.path
    requires a.statOk && a.hashOk && b.statOk && b.hashOk && Scan.Under(root, a.path) && Scan.Under(root, b.path)
    ensures Scan.Ordinary(t, {}, [a, b], now, root)
  {
  }

  lemma FirstScan() returns (second: Scan.Tracks)
    ensures second == Scan.ScanRun(FIRST, {}, [VISIT_A, VISIT_K], 1, "/m")
    ensures second.Keys == {"s"} && second["s"].path == KEPT && second["s"].seen < 2
  {
    NamesSeen();
    NamesOrdinary(FIRST, 1, VISIT_A, VISIT_K, "/m");
    second := Scan.ScanRun(FIRST, {}, [VISIT_A, VISIT_K], 1, "/m");
    ScanFailure.TwoFiles(FIRST, VISIT_A, VISIT_K, 1, "/m");
    ScanFailure.SeenBy(FIRST, {}, [VISIT_A, VISIT_K], 1, "/m", "s");
  }

  /** The flip of a recovered track, with the scans that make it: the second
      one walks the two names in the other order, and must, to make it. */
  lemma OtherOrderFlips() returns (second: Scan.Tracks)
    ensures second == Scan.ScanRun(FIRST, {}, [VISIT_A, VISIT_K], 1, "/m")
    ensures PathsOf(FIRST) == CRASHED.tracks && PathsOf(second) == SCANNED.tracks == RERUN.tracks
    ensures PathsOf(Scan.ScanRun(second, {}, [VISIT_K, VISIT_A], 2, "/m")) == FLIPPED.tracks
    ensures PathsOf(Scan.ScanRun(second, {}, [VISIT_A, VISIT_K], 2, "/m")) == RERUN.tracks
  {
    second := FirstScan();
    NamesSeen();
    NamesOrdinary(second, 2, VISIT_K, VISIT_A, "/m");
    NamesOrdinary(second, 2, VISIT_A, VISIT_K, "/m");
    ScanFailure.TwoFiles(second, VISIT_K, VISIT_A, 2, "/m");
    ScanFailure.TwoFiles(second, VISIT_A, VISIT_K, 2, "/m");
    assert PathsOf(second) == map["s" := KEPT];
    assert PathsOf(Scan.ScanRun(second, {}, [VISIT_K, VISIT_A], 2, "/m")) == map["s" := ARCHIVED];
    assert PathsOf(Scan.ScanRun(second, {}, [VISIT_A, VISIT_K], 2, "/m")) == map["s" := KEPT];
  }
}
