/** rotate_run_ex without transcoding: the diff it plans, what an error-free
    run leaves, and what a second run would plan. */
module RotatePlan {
  import opened Paths
  import opened Jobs
  import opened Rotate

  predicate Present(w: World, s: Sha) {
    s in w.tracks && w.tracks[s] in w.names
  }

  ghost function ResidentRows(w: World): set<Sha> {
    set s | s in w.residency && w.residency[s] == Resident
  }

  /** filter_resident_present: rows whose file is where tracks.path says. */
  ghost function OnDisk(w: World): set<Sha> {
    set s | s in ResidentRows(w) && Present(w, s)
  }

  ghost function ToAdd(w: World, manifest: set<Sha>): set<Sha> { manifest - OnDisk(w) }

  ghost function ToRemove(w: World, manifest: set<Sha>): set<Sha> { OnDisk(w) - manifest }

  ghost function Planned(w: World, manifest: set<Sha>, d: Direction): set<Sha> {
    if d.Promote? then ToAdd(w, manifest) else ToRemove(w, manifest)
  }

  ghost predicate Plan(w: World, manifest: set<Sha>, jobs: seq<Job>) {
    CarryOut(jobs, ToAdd(w, manifest), ToRemove(w, manifest))
  }

  ghost predicate UniquePaths(w: World) {
    forall s, t :: s in w.tracks && t in w.tracks && w.tracks[s] == w.tracks[t] ==> s == t
  }

  lemma ErrorsGrow(root: string, w: World, jobs: seq<Job>, st: Stats)
    ensures Run(root, w, jobs, st).stats.errors >= st.errors
    decreases |jobs|
  {
    if jobs == [] {
    } else {
      var first := Turn(root, w, jobs[0], st);
      TurnErrors(root, w, jobs[0], st);
      ErrorsGrow(root, first.Final(), jobs[1..], first.stats);
    }
  }

  /** The names after the file at cur has moved to dst. */
  ghost predicate MovedName(w: World, x: World, cur: Path, dst: Path) {
    && cur in w.names && dst in x.names && cur !in x.names
    && (x.names[dst].ino == w.names[cur].ino || x.names[dst].data == w.names[cur].data)
    && (dst in w.names ==> w.names[dst].ino == w.names[cur].ino)
    && (forall p :: p != cur && p != dst ==>
          (p in x.names <==> p in w.names) && (p in x.names ==> x.names[p] == w.names[p]))
  }

  /** The name and the row of sha have moved from cur to dst together. */
  ghost predicate Moved(w: World, x: World, sha: Sha, cur: Path, dst: Path, d: Direction) {
    && MovedName(w, x, cur, dst)
    && !PathTaken(w.tracks, sha, dst)
    && x.tracks == w.tracks[sha := dst]
    && x.residency == w.residency[sha := Target(d)]
  }

  /** What arrives at dst: the file that lies there, a copy, or the file at cur. */
  function Arrived(w: World, cur: Path, dst: Path, link: LinkFault): File
    requires cur in w.names
  {
    if dst in w.names then w.names[dst]
    else if link.CrossDevice? then File(w.nextIno, w.names[cur].data)
    else w.names[cur]
  }

  /** A move of a file that counts no error, whatever calls it made. */
  lemma ArrivedFile(w: World, sha: Sha, cur: Path, dst: Path, d: Direction, f: Faults, st: Stats)
    requires cur != dst && MoveFile(w, sha, cur, dst, d, f, st).stats.errors == st.errors
    ensures var x := MoveFile(w, sha, cur, dst, d, f, st).Final();
            && cur in w.names && (dst in w.names ==> w.names[dst].ino == w.names[cur].ino)
            && !PathTaken(w.tracks, sha, dst)
            && x.names == w.names[dst := Arrived(w, cur, dst, f.link)] - {cur}
            && x.tracks == w.tracks[sha := dst] && x.residency == w.residency[sha := Target(d)]
  {
    match LinkCall(w, cur, dst, f.link)
    case Linked => CleanFinish(AddLink(w, cur, dst), sha, cur, dst, d, f, 0, st);
    case Exists =>
      CleanFinish(w, sha, cur, dst, d, f, 1, st.(alreadyApplied := st.alreadyApplied + 1));
      assert w.names[dst := w.names[dst]] == w.names;
    case OtherDevice => CleanCopy(w, sha, cur, dst, d, f, st);
    case _ =>
  }

  lemma CleanFile(w: World, sha: Sha, cur: Path, dst: Path, d: Direction, f: Faults, st: Stats)
    requires cur != dst && MoveFile(w, sha, cur, dst, d, f, st).stats.errors == st.errors
    ensures Moved(w, MoveFile(w, sha, cur, dst, d, f, st).Final(), sha, cur, dst, d)
  {
    ArrivedFile(w, sha, cur, dst, d, f, st);
    MovedNames(w, MoveFile(w, sha, cur, dst, d, f, st).Final(), cur, dst, Arrived(w, cur, dst, f.link));
  }

  lemma MovedNames(w: World, x: World, cur: Path, dst: Path, file: File)
    requires cur != dst && cur in w.names && x.names == w.names[dst := file] - {cur}
    requires file.ino == w.names[cur].ino || file.data == w.names[cur].data
    requires dst in w.names ==> w.names[dst].ino == w.names[cur].ino && file == w.names[dst]
    ensures MovedName(w, x, cur, dst)
  {}

  lemma CleanFinish(w: World, sha: Sha, cur: Path, dst: Path, d: Direction, f: Faults, rc: int, st: Stats)
    requires FinishLinked(w, sha, cur, dst, d, f, rc, st).stats.errors == st.errors
    ensures var x := FinishLinked(w, sha, cur, dst, d, f, rc, st).Final();
            x == SetLocation(SetPath(Unlink(w, cur), sha, dst), sha, d)
    ensures !PathTaken(w.tracks, sha, dst)
  {}

  lemma CleanCopy(w: World, sha: Sha, cur: Path, dst: Path, d: Direction, f: Faults, st: Stats)
    requires cur in w.names && dst !in w.names
    requires MoveByCopy(w, sha, cur, dst, d, f, st).stats.errors == st.errors
    ensures var x := MoveByCopy(w, sha, cur, dst, d, f, st).Final();
            && x.names == w.names[dst := File(w.nextIno, w.names[cur].data)] - {cur}
            && x.tracks == w.tracks[sha := dst]
            && x.residency == w.residency[sha := Target(d)]
    ensures !PathTaken(w.tracks, sha, dst)
  {
    var w2 := Fill(CreateEmpty(w, dst), dst, w.names[cur].data);
    assert w2.names == w.names[dst := File(w.nextIno, w.names[cur].data)];
  }

  /** An error-free move either finds the row already on the target side, or
      moves name and row together; it never hides or reveals another row's
      file. */
  lemma CleanMove(root: string, w: World, job: Job, st: Stats)
    requires UniquePaths(w) && MoveOne(root, w, job, st).stats.errors == st.errors
    ensures var x := MoveOne(root, w, job, st).Final();
            && UniquePaths(x)
            && job.sha in w.tracks
            && x.tracks.Keys == w.tracks.Keys
            && x.residency == w.residency[job.sha := Target(job.dir)]
            && (forall s :: s in w.tracks ==> (Present(w, s) <==> Present(x, s)))
  {
    var Job(sha, d, f) := job;
    var cur := w.tracks[sha];
    if Swap(root, cur, d).Some? {
      var dst := Swap(root, cur, d).value;
      SwapUndo(root, cur, d);
      CleanFile(w, sha, cur, dst, d, f, st);
      MovedRows(w, MoveOne(root, w, job, st).Final(), sha, cur, dst, d);
    }
  }

  lemma MovedRows(w: World, x: World, sha: Sha, cur: Path, dst: Path, d: Direction)
    requires UniquePaths(w) && sha in w.tracks && w.tracks[sha] == cur && cur != dst && Moved(w, x, sha, cur, dst, d)
    ensures UniquePaths(x)
    ensures forall s :: s in w.tracks ==> (Present(w, s) <==> Present(x, s))
  {
    forall s | s in w.tracks ensures Present(w, s) <==> Present(x, s) {
      if s != sha { assert x.tracks[s] == w.tracks[s] && x.tracks[s] != dst && x.tracks[s] != cur; }
    }
  }

  /** Same entry for s in both. */
  ghost predicate SameRow(a: map<Sha, Location>, b: map<Sha, Location>, s: Sha) {
    (s in a <==> s in b) && (s in a ==> a[s] == b[s])
  }

  /** The jobs' rows are rewritten and nothing else about rows changes. */
  ghost predicate Done(w: World, x: World, jobs: seq<Job>) {
    && x.tracks.Keys == w.tracks.Keys
    && (forall s :: s in w.tracks ==> (Present(w, s) <==> Present(x, s)))
    && (forall i :: 0 <= i < |jobs| ==> jobs[i].sha in w.tracks)
    && (forall i :: 0 <= i < |jobs| ==> jobs[i].sha in x.residency && x.residency[jobs[i].sha] == Target(jobs[i].dir))
    && (forall s :: !Mentions(jobs, s) ==> SameRow(w.residency, x.residency, s))
  }

  lemma DoneCons(w: World, mid: World, x: World, jobs: seq<Job>)
    requires jobs != [] && DistinctJobs(jobs) && Done(mid, x, jobs[1..])
    requires jobs[0].sha in w.tracks && mid.tracks.Keys == w.tracks.Keys
    requires mid.residency == w.residency[jobs[0].sha := Target(jobs[0].dir)]
    requires forall s :: s in w.tracks ==> (Present(w, s) <==> Present(mid, s))
    ensures Done(w, x, jobs)
  {
    var rest := jobs[1..];
    assert forall i :: 0 < i < |jobs| ==> jobs[i] == rest[i - 1];
    forall s | s == jobs[0].sha || !Mentions(jobs, s) ensures !Mentions(rest, s) {
      forall i | 0 <= i < |rest| ensures rest[i].sha != s { assert jobs[i + 1] == rest[i]; }
    }
    assert SameRow(mid.residency, x.residency, jobs[0].sha);
    forall s | !Mentions(jobs, s) ensures SameRow(w.residency, x.residency, s) {
      assert jobs[0].sha != s;
      assert SameRow(mid.residency, x.residency, s);
    }
  }

  lemma TurnErrors(root: string, w: World, job: Job, st: Stats)
    ensures Turn(root, w, job, st).stats.errors >= MoveOne(root, w, job, st).stats.errors >= st.errors
  {}

  /** The first turn of an error-free run is error-free, and so is the rest. */
  lemma ErrorFreeHead(root: string, w: World, jobs: seq<Job>, st: Stats) returns (mid: World, u: Stats)
    requires jobs != [] && Run(root, w, jobs, st).stats.errors == st.errors
    ensures MoveOne(root, w, jobs[0], st).Valid() && mid == MoveOne(root, w, jobs[0], st).Final()
    ensures MoveOne(root, w, jobs[0], st).stats.errors == st.errors == u.errors
    ensures Run(root, w, jobs, st).Final() == Run(root, mid, jobs[1..], u).Final()
    ensures Run(root, mid, jobs[1..], u).stats.errors == u.errors
  {
    mid, u := FirstTurn(root, w, jobs, st);
    TurnErrors(root, w, jobs[0], st);
    ErrorsGrow(root, mid, jobs[1..], u);
  }

  lemma {:induction false} CleanRun(root: string, w: World, jobs: seq<Job>, st: Stats)
    requires UniquePaths(w) && DistinctJobs(jobs)
    requires Run(root, w, jobs, st).stats.errors == st.errors
    ensures Done(w, Run(root, w, jobs, st).Final(), jobs)
    decreases |jobs|
  {
    if jobs == [] {
    } else {
      var mid, u := ErrorFreeHead(root, w, jobs, st);
      CleanMove(root, w, jobs[0], st);
      CleanRun(root, mid, jobs[1..], u);
      DoneCons(w, mid, Run(root, mid, jobs[1..], u).Final(), jobs);
    }
  }

  /** After an error-free run the resident rows are the manifest plus the
      rows dropped as missing on disk; a second run would remove nothing, and
      would add exactly the manifest tracks whose file was missing before. */
  lemma ErrorFreeRun(root: string, w: World, manifest: set<Sha>, jobs: seq<Job>, st: Stats)
    requires UniquePaths(w) && Plan(w, manifest, jobs)
    requires Run(root, w, jobs, st).stats.errors == st.errors
    ensures var x := Run(root, w, jobs, st).Final();
            && ResidentRows(x) == manifest + (ResidentRows(w) - OnDisk(w))
            && ToRemove(x, manifest) == {}
            && ToAdd(x, manifest) == set s | s in manifest && !Present(w, s)
  {
    CleanRun(root, w, jobs, st);
    var x := Run(root, w, jobs, st).Final();
    forall s ensures s in ResidentRows(x) <==> s in manifest + (ResidentRows(w) - OnDisk(w)) {
      if Mentions(jobs, s) {
        var i :| 0 <= i < |jobs| && jobs[i].sha == s;
        assert s in Planned(w, manifest, jobs[i].dir);
      } else {
        assert SameRow(w.residency, x.residency, s);
      }
    }
    forall s | s in ResidentRows(w) - OnDisk(w) ensures !Present(x, s) {}
    forall s | s in manifest ensures Present(x, s) <==> Present(w, s) {}
  }

  /** So a second run plans nothing exactly when every manifest track's file
      was where its row said. */
  lemma SecondRunIdle(root: string, w: World, manifest: set<Sha>, jobs: seq<Job>, st: Stats)
    requires UniquePaths(w) && Plan(w, manifest, jobs)
    requires Run(root, w, jobs, st).stats.errors == st.errors
    ensures var x := Run(root, w, jobs, st).Final();
            (ToAdd(x, manifest) == {} && ToRemove(x, manifest) == {}) <==> forall s :: s in manifest ==> Present(w, s)
  {
    ErrorFreeRun(root, w, manifest, jobs, st);
    var missing := set s | s in manifest && !Present(w, s);
    if missing == {} {
      forall s | s in manifest ensures Present(w, s) { assert s !in missing; }
    }
  }

  /** A resident row whose file is gone is "re-promoted" by rewriting its row
      only: no error is counted, nothing is changed, and the next run plans it
      again. */
  lemma MissingFileNeverHeals(root: string, w: World, manifest: set<Sha>, s: Sha, f: Faults, st: Stats)
    requires s in manifest && s in w.tracks && w.tracks[s] !in w.names
    requires s in w.residency && w.residency[s] == Resident
    requires Swap(root, w.tracks[s], Demote).Some? && !f.upsert
    ensures s in ToAdd(w, manifest)
    ensures var o := MoveOne(root, w, Job(s, Promote, f), st);
            o.Final() == w && o.rc == 1 && o.stats == st.(alreadyApplied := st.alreadyApplied + 1)
  {
    SwapUndo(root, w.tracks[s], Demote);
    assert w.residency == w.residency[s := Resident];
  }

  /** One such library, and the run of its plan. */
  lemma MissingFileRun()
    ensures var p := At("/m", "resident", "a.flac");
            var w := World(map[], 0, map["s" := p], map["s" := Resident]);
            var o := Run("/m", w, [Job("s", Promote, NO_FAULTS)], Stats(0, 0, 0, 0, 0, 0, 0, 0));
            && Plan(w, {"s"}, [Job("s", Promote, NO_FAULTS)])
            && o.stats.errors == 0 && o.Final() == w && ToAdd(o.Final(), {"s"}) == {"s"}
  {
    var p := At("/m", "resident", "a.flac");
    var w := World(map[], 0, map["s" := p], map["s" := Resident]);
    var job, st := Job("s", Promote, NO_FAULTS), Stats(0, 0, 0, 0, 0, 0, 0, 0);
    SwapForm("/m", p, "resident", "archive");
    MissingFileNeverHeals("/m", w, {"s"}, "s", NO_FAULTS, st);
    assert ToAdd(w, {"s"}) == {"s"} && ToRemove(w, {"s"}) == {};
    assert Run("/m", w, [job], st).Final() == w;
  }
}
