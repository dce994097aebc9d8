/** What a rotation makes of each track, and exactly which tracks a rescan and
    one more rotation put right after a crash. */
module Rerun {
  import opened Prelude
  import opened Paths
  import opened Jobs
  import opened Rotate
  import opened RotatePlan
  import opened Recovery

  /** The row is on the source side and the move cannot be made: its file is
      gone, or a file with another inode is in the way. */
  predicate Blocked(v: View, d: Direction) {
    var src, dst := v.Here(Other(Target(d))), v.Here(Target(d));
    v.side != Target(d) && (src.None? || (dst.Some? && dst.value.ino != src.value.ino))
  }

  /** No call fails, but the two trees may be on two filesystems. */
  predicate Works(f: Faults) { f == NO_FAULTS.(link := f.link) && !f.link.OtherLinkError? }

  /** A track before and after a move_one that works. Only a copy has an inode
      of its own. */
  predicate Steps(v: View, x: View, d: Direction, link: LinkFault) {
    var src, dst := v.Here(Other(Target(d))), v.Here(Target(d));
    if v.side == Target(d) then x == v.(resident := d.Promote?)
    else if Blocked(v, d) then x == v
    else
      var arrived := x.Here(Target(d));
      && arrived.Some? && arrived.value.data == src.value.data
      && (!link.CrossDevice? || dst.Some? ==> arrived == src)
      && x == v.(side := Target(d), resident := d.Promote?)
               .With(Target(d), arrived).With(Other(Target(d)), None)
  }

  /** What a move_one makes of its track's view. It was clean if it counted no
      error, which it does without a failing call exactly when it is not
      blocked. */
  predicate Turned(v: View, x: View, job: Job, clean: bool) {
    && (clean ==> !Blocked(v, job.dir) && Steps(v, x, job.dir, job.faults.link))
    && (Works(job.faults) ==> Steps(v, x, job.dir, job.faults.link) && (clean <==> !Blocked(v, job.dir)))
  }

  lemma FreeTarget(lib: Library, w: World, s: Sha, d: Direction)
    requires Inv(lib, w) && s in lib.tails && s in w.tracks
    requires See(lib, w, s).side != Target(d) && !Blocked(See(lib, w, s), d)
    ensures !PathTaken(w.tracks, s, Home(lib, s, Target(d)))
  {
    assert Ok(lib, w, s);
    forall o | o in w.tracks && o != s ensures w.tracks[o] != Home(lib, s, Target(d)) {
      if o in lib.tails {
        assert Ok(lib, w, o);
        if w.tracks[o] == Home(lib, s, Target(d)) {
          var l := if w.tracks[o] == Home(lib, o, Resident) then Resident else Archive;
          HomesDistinct(lib, o, l, s, Target(d));
        }
      }
    }
  }

  lemma WorkingFile(w: World, s: Sha, cur: Path, dst: Path, d: Direction, f: Faults, st: Stats)
    requires Works(f) && cur in w.names && !PathTaken(w.tracks, s, dst)
    requires dst in w.names ==> w.names[dst].ino == w.names[cur].ino
    ensures MoveFile(w, s, cur, dst, d, f, st).stats.errors == st.errors
  {}

  /** Whatever works and whatever fails. */
  lemma BlockedFile(w: World, s: Sha, cur: Path, dst: Path, d: Direction, f: Faults, st: Stats)
    requires cur !in w.names || (dst in w.names && w.names[dst].ino != w.names[cur].ino)
    ensures var o := MoveFile(w, s, cur, dst, d, f, st);
            o.Final() == w && o.stats.errors == st.errors + 1
  {}

  lemma SeeArrived(lib: Library, w: World, x: World, s: Sha, d: Direction, link: LinkFault)
    requires ValidInodes(w) && Ok(lib, w, s) && s in w.tracks
    requires See(lib, w, s).side != Target(d) && !Blocked(See(lib, w, s), d)
    requires var cur, dst := Home(lib, s, Other(Target(d))), Home(lib, s, Target(d));
             && x.tracks == w.tracks[s := dst]
             && x.residency == w.residency[s := Target(d)]
             && x.names == w.names[dst := Arrived(w, cur, dst, link)] - {cur}
    ensures Steps(See(lib, w, s), See(lib, x, s), d, link)
  {
    HomeSwap(lib, s, d);
  }

  lemma FileTurned(lib: Library, w: World, job: Job, st: Stats)
    requires Inv(lib, w) && job.sha in lib.tails && job.sha in w.tracks
    requires See(lib, w, job.sha).side != Target(job.dir)
    ensures var Job(s, d, f) := job;
            var o := MoveFile(w, s, Home(lib, s, Other(Target(d))), Home(lib, s, Target(d)), d, f, st);
            Turned(See(lib, w, s), See(lib, o.Final(), s), job, o.stats.errors == st.errors)
  {
    var Job(s, d, f) := job;
    var cur, dst := Home(lib, s, Other(Target(d))), Home(lib, s, Target(d));
    assert Ok(lib, w, s);
    HomeSwap(lib, s, d);
    if Blocked(See(lib, w, s), d) {
      BlockedFile(w, s, cur, dst, d, f, st);
    } else {
      FreeTarget(lib, w, s, d);
      if Works(f) { WorkingFile(w, s, cur, dst, d, f, st); }
      var o := MoveFile(w, s, cur, dst, d, f, st);
      if o.stats.errors == st.errors {
        ArrivedFile(w, s, cur, dst, d, f, st);
        SeeArrived(lib, w, o.Final(), s, d, f.link);
      }
    }
  }

  lemma MoveTurned(lib: Library, w: World, job: Job, st: Stats)
    requires Inv(lib, w) && job.sha in lib.tails && job.sha in w.tracks
    ensures var o := MoveOne(lib.root, w, job, st);
            Turned(See(lib, w, job.sha), See(lib, o.Final(), job.sha), job, o.stats.errors == st.errors)
  {
    assert Ok(lib, w, job.sha);
    HomeSwap(lib, job.sha, job.dir);
    if See(lib, w, job.sha).side != Target(job.dir) { FileTurned(lib, w, job, st); }
  }

  // ---- one track through a run ---------------------------------------------

  /** The run counts no error while it deals with s. */
  ghost predicate CleanFor(root: string, w: World, jobs: seq<Job>, st: Stats, s: Sha)
    decreases |jobs|
  {
    jobs == [] ||
    (var first := Turn(root, w, jobs[0], st);
     (jobs[0].sha == s ==> first.stats.errors == st.errors)
     && CleanFor(root, first.Final(), jobs[1..], first.stats, s))
  }

  /** A run that counts no error counts none for any track. */
  lemma {:induction false} ErrorFreeClean(root: string, w: World, jobs: seq<Job>, st: Stats, s: Sha)
    requires Run(root, w, jobs, st).stats.errors == st.errors
    ensures CleanFor(root, w, jobs, st, s)
    decreases |jobs|
  {
    if jobs == [] {
    } else {
      var mid, u := FirstTurn(root, w, jobs, st);
      TurnErrors(root, w, jobs[0], st);
      ErrorsGrow(root, mid, jobs[1..], u);
      ErrorFreeClean(root, mid, jobs[1..], u, s);
    }
  }

  ghost predicate WorksFor(jobs: seq<Job>, s: Sha) {
    forall i :: 0 <= i < |jobs| && jobs[i].sha == s ==> Works(jobs[i].faults)
  }

  /** What see shows of s changes by the jobs on s only, in the worlds of p. */
  ghost predicate Separate<V>(root: string, s: Sha, p: World -> bool, q: Job -> bool, see: World -> V) {
    forall y: World, job: Job, u: Stats :: p(y) && q(job) ==>
      p(MoveOne(root, y, job, u).Final())
      && (job.sha != s ==> see(MoveOne(root, y, job, u).Final()) == see(y))
  }

  lemma {:induction false} OtherTurns<V>(root: string, w: World, jobs: seq<Job>, st: Stats, s: Sha,
                                         p: World -> bool, q: Job -> bool, see: World -> V)
    requires Separate(root, s, p, q, see) && p(w)
    requires forall i :: 0 <= i < |jobs| ==> q(jobs[i]) && jobs[i].sha != s
    ensures see(Run(root, w, jobs, st).Final()) == see(w) && CleanFor(root, w, jobs, st, s)
    decreases |jobs|
  {
    if jobs == [] {
    } else {
      var mid, u := FirstTurn(root, w, jobs, st);
      OtherTurns(root, mid, jobs[1..], u, s, p, q, see);
    }
  }

  /** The turn of job i finds its track as the run finds it, and leaves it as
      the run leaves it. */
  lemma {:induction false} OwnTurn<V>(root: string, w: World, jobs: seq<Job>, st: Stats, i: nat,
                                      p: World -> bool, q: Job -> bool, see: World -> V)
    returns (at: World, u: Stats)
    requires i < |jobs| && Separate(root, jobs[i].sha, p, q, see) && p(w)
    requires DistinctJobs(jobs) && forall k :: 0 <= k < |jobs| ==> q(jobs[k])
    ensures p(at) && see(at) == see(w)
    ensures see(Run(root, w, jobs, st).Final()) == see(MoveOne(root, at, jobs[i], u).Final())
    ensures CleanFor(root, w, jobs, st, jobs[i].sha) <==> MoveOne(root, at, jobs[i], u).stats.errors == u.errors
    decreases |jobs|
  {
    var mid, v := FirstTurn(root, w, jobs, st);
    if i == 0 {
      OtherTurns(root, mid, jobs[1..], v, jobs[0].sha, p, q, see);
      return w, st;
    } else {
      assert jobs[1..][i - 1] == jobs[i];
      at, u := OwnTurn(root, mid, jobs[1..], v, i - 1, p, q, see);
    }
  }

  /** A turn leaves the views of the other tracks alone. */
  lemma OtherTurn(lib: Library, w: World, job: Job, st: Stats, s: Sha)
    requires Inv(lib, w) && job.sha in lib.tails && s in lib.tails
    ensures var x := MoveOne(lib.root, w, job, st).Final();
            && Inv(lib, x) && x.tracks.Keys == w.tracks.Keys
            && (s != job.sha ==> See(lib, x, s) == See(lib, w, s))
  {
    var o := MoveOne(lib.root, w, job, st);
    assert o.Final() in o.trace;
    if job.sha in w.tracks {
      MoveStep(lib, w, job, st, o.Final());
      Frame(lib, w, o.Final(), job.sha);
    }
  }

  /** In a library, tracks are separate. */
  lemma TracksSeparate(lib: Library, w: World, s: Sha, p: World -> bool, q: Job -> bool, see: World -> View)
    requires s in lib.tails
    requires forall y :: p(y) <==> Inv(lib, y) && y.tracks.Keys == w.tracks.Keys
    requires forall job :: q(job) <==> job.sha in lib.tails
    requires forall y :: see(y) == See(lib, y, s)
    ensures Separate(lib.root, s, p, q, see)
  {
    forall y: World, job: Job, u: Stats | p(y) && q(job)
      ensures p(MoveOne(lib.root, y, job, u).Final())
      ensures job.sha != s ==> see(MoveOne(lib.root, y, job, u).Final()) == see(y)
    {
      OtherTurn(lib, y, job, u, s);
    }
  }

  /** A run leaves a track without a job as it was. */
  lemma OtherRun(lib: Library, w: World, jobs: seq<Job>, st: Stats, s: Sha)
    requires Inv(lib, w) && Known(lib, jobs) && s in lib.tails && !Mentions(jobs, s)
    ensures See(lib, Run(lib.root, w, jobs, st).Final(), s) == See(lib, w, s)
    ensures CleanFor(lib.root, w, jobs, st, s)
  {
    var p := y => Inv(lib, y) && y.tracks.Keys == w.tracks.Keys;
    var q := (job: Job) => job.sha in lib.tails;
    var see := y => See(lib, y, s);
    TracksSeparate(lib, w, s, p, q, see);
    OtherTurns(lib.root, w, jobs, st, s, p, q, see);
  }

  /** A run makes of a track what its own job makes of it. */
  lemma TrackRun(lib: Library, w: World, jobs: seq<Job>, st: Stats, i: nat)
    requires Inv(lib, w) && Known(lib, jobs) && DistinctJobs(jobs) && i < |jobs| && jobs[i].sha in w.tracks
    ensures var s := jobs[i].sha;
            Turned(See(lib, w, s), See(lib, Run(lib.root, w, jobs, st).Final(), s), jobs[i],
                   CleanFor(lib.root, w, jobs, st, s))
  {
    var s := jobs[i].sha;
    var p := y => Inv(lib, y) && y.tracks.Keys == w.tracks.Keys;
    var q := (job: Job) => job.sha in lib.tails;
    var see := y => See(lib, y, s);
    TracksSeparate(lib, w, s, p, q, see);
    var at, u := OwnTurn(lib.root, w, jobs, st, i, p, q, see);
    MoveTurned(lib, at, jobs[i], u);
  }

  // ---- the exact condition -------------------------------------------------

  function Wanted(manifest: set<Sha>, s: Sha): Location { if s in manifest then Resident else Archive }

  /** The track is where the manifest wants it: row, residency and content. */
  predicate Good(v: View, s: Sha, want: Location) {
    v.side == want && (v.resident <==> want.Resident?) && Holds(v.Here(want), s)
  }

  /** What makes a rotation fail a track whose row names its content: the row
      is on the wrong side, and either residency_state already says otherwise,
      so no move is planned, or a file with another inode is in the way. */
  predicate Stuck(v: View, want: Location) {
    && v.side != want
    && (|| (v.resident <==> want.Resident?)
        || (v.Here(want).Some? && v.Here(v.side).Some? && v.Here(want).value.ino != v.Here(v.side).value.ino))
  }

  /** The plan has a job for a track exactly when residency_state disagrees
      with the manifest, and it moves the track towards the manifest. */
  lemma PlannedMove(lib: Library, w: World, manifest: set<Sha>, jobs: seq<Job>, s: Sha)
    requires Present(w, s) && Plan(w, manifest, jobs)
    ensures Mentions(jobs, s) <==> IsResident(w, s) != (s in manifest)
    ensures forall i :: 0 <= i < |jobs| && jobs[i].sha == s ==> Target(jobs[i].dir) == Wanted(manifest, s)
  {
    forall i | 0 <= i < |jobs| && jobs[i].sha == s
      ensures Target(jobs[i].dir) == Wanted(manifest, s) && IsResident(w, s) != (s in manifest)
    {
      assert s in Planned(w, manifest, jobs[i].dir);
    }
    if IsResident(w, s) != (s in manifest) {
      assert s in ToAdd(w, manifest) + ToRemove(w, manifest);
    }
  }

  /** Every planned job is about a track of the library. */
  lemma PlanKnown(lib: Library, w: World, manifest: set<Sha>, jobs: seq<Job>)
    requires Inv(lib, w) && manifest <= lib.tails.Keys && Plan(w, manifest, jobs)
    ensures Known(lib, jobs)
  {
    forall i | 0 <= i < |jobs| ensures jobs[i].sha in lib.tails {
      assert jobs[i].sha in Planned(w, manifest, jobs[i].dir);
    }
  }

  /** The view the lack of a job, or a job that works, leaves. */
  lemma RightView(v: View, x: View, s: Sha, want: Location, d: Direction, link: LinkFault)
    requires Holds(v.Here(v.side), s) && Target(d) == want
    ensures (v.resident <==> want.Resident?) ==> (Good(v, s, want) <==> !Stuck(v, want))
    ensures !(v.resident <==> want.Resident?) && Steps(v, x, d, link) ==> (Good(x, s, want) <==> !Stuck(v, want))
  {}

  /** After any history and a scan, a rotation leaves a track where the manifest
      wants it exactly when it is not stuck: provided no call on the track
      fails, other than a link across devices, or else no error is counted for
      it. */
  lemma RerunPutsRight(lib: Library, w: World, manifest: set<Sha>, jobs: seq<Job>, st: Stats, s: Sha)
    requires Inv(lib, w) && manifest <= lib.tails.Keys && s in lib.tails && RowKept(lib, w, s)
    requires Plan(w, manifest, jobs) && (WorksFor(jobs, s) || CleanFor(lib.root, w, jobs, st, s))
    ensures Good(See(lib, Run(lib.root, w, jobs, st).Final(), s), s, Wanted(manifest, s))
            <==> !Stuck(See(lib, w, s), Wanted(manifest, s))
  {
    PlanKnown(lib, w, manifest, jobs);
    PlannedMove(lib, w, manifest, jobs, s);
    var v, x := See(lib, w, s), See(lib, Run(lib.root, w, jobs, st).Final(), s);
    if Mentions(jobs, s) {
      var i :| 0 <= i < |jobs| && jobs[i].sha == s;
      TrackRun(lib, w, jobs, st, i);
      RightView(v, x, s, Wanted(manifest, s), jobs[i].dir, jobs[i].faults.link);
    } else {
      OtherRun(lib, w, jobs, st, s);
      RightView(v, x, s, Wanted(manifest, s), if s in manifest then Promote else Demote, NoLinkFault);
    }
  }

  /** Without a failing call, an error is counted for a track exactly when a
      file with another inode is in the way of its planned move. */
  lemma CleanExactly(lib: Library, w: World, manifest: set<Sha>, jobs: seq<Job>, st: Stats, s: Sha)
    requires Inv(lib, w) && manifest <= lib.tails.Keys && s in lib.tails && RowKept(lib, w, s)
    requires Plan(w, manifest, jobs) && WorksFor(jobs, s)
    ensures var v, want := See(lib, w, s), Wanted(manifest, s);
            CleanFor(lib.root, w, jobs, st, s) <==>
            !(Stuck(v, want) && (v.resident <==> want.Archive?))
  {
    PlanKnown(lib, w, manifest, jobs);
    PlannedMove(lib, w, manifest, jobs, s);
    if Mentions(jobs, s) {
      var i :| 0 <= i < |jobs| && jobs[i].sha == s;
      TrackRun(lib, w, jobs, st, i);
    } else {
      OtherRun(lib, w, jobs, st, s);
    }
  }

  /** A rotation that counts no error for a track leaves it where the manifest
      wants it exactly when its row was on that side, or a move was planned. */
  lemma ErrorFreeRerun(lib: Library, w: World, manifest: set<Sha>, jobs: seq<Job>, st: Stats, s: Sha)
    requires Inv(lib, w) && manifest <= lib.tails.Keys && s in lib.tails && RowKept(lib, w, s)
    requires Plan(w, manifest, jobs) && CleanFor(lib.root, w, jobs, st, s)
    ensures var v, want := See(lib, w, s), Wanted(manifest, s);
            Good(See(lib, Run(lib.root, w, jobs, st).Final(), s), s, want)
            <==> v.side == want || (v.resident <==> want.Archive?)
  {
    RerunPutsRight(lib, w, manifest, jobs, st, s);
    PlanKnown(lib, w, manifest, jobs);
    PlannedMove(lib, w, manifest, jobs, s);
    if Mentions(jobs, s) {
      var i :| 0 <= i < |jobs| && jobs[i].sha == s;
      TrackRun(lib, w, jobs, st, i);
    }
  }

  // ---- one crashed rotation ------------------------------------------------

  /** One name, on the side residency_state gives. */
  ghost predicate Settled(lib: Library, w: World, s: Sha) {
    && Inv(lib, w) && s in lib.tails && s in w.tracks
    && var v := See(lib, w, s);
       (v.resident <==> v.side.Resident?) && v.Here(v.side).Some? && v.Here(Other(v.side)).None?
  }

  /** Once the row or residency_state says the track is where it is wanted, the
      other name is gone. */
  predicate Recoverable(v: View, want: Location) {
    (v.side == want || (v.resident <==> want.Resident?)) ==> v.Here(Other(want)).None?
  }

  /** Two names are two links. */
  predicate OneFile(v: View) {
    v.archive.Some? && v.kept.Some? ==> v.archive.value.ino == v.kept.value.ino
  }

  /** Both survive a step of the track, the first when its unlink works and the
      second when the link does not cross devices. */
  predicate StepKeeps(v: View, x: View, want: Location, f: Faults) {
    && (!f.unlink && Recoverable(v, want) ==> Recoverable(x, want))
    && (!f.link.CrossDevice? && OneFile(v) ==> OneFile(x))
  }

  lemma LinkedKeeps(lib: Library, w: World, s: Sha, d: Direction, f: Faults, st: Stats, x: World)
    requires Moving(lib, w, s, d) && w.tracks[s] in w.names && Home(lib, s, Target(d)) !in w.names
    requires var cur, dst := Home(lib, s, Other(Target(d))), Home(lib, s, Target(d));
             x in FinishLinked(AddLink(w, cur, dst), s, cur, dst, d, f, 0, st).trace
    ensures StepKeeps(See(lib, w, s), See(lib, x, s), Target(d), f)
  {
    var cur, dst := Home(lib, s, Other(Target(d))), Home(lib, s, Target(d));
    HomeSwap(lib, s, d);
    FinishTrace(AddLink(w, cur, dst), s, cur, dst, d, f, 0, st, x);
  }

  lemma ExistsKeeps(lib: Library, w: World, s: Sha, d: Direction, f: Faults, st: Stats, x: World)
    requires Moving(lib, w, s, d) && w.tracks[s] in w.names && Home(lib, s, Target(d)) in w.names
    requires var cur, dst := Home(lib, s, Other(Target(d))), Home(lib, s, Target(d));
             x in FinishLinked(w, s, cur, dst, d, f, 1, st).trace
    ensures StepKeeps(See(lib, w, s), See(lib, x, s), Target(d), f)
  {
    var cur, dst := Home(lib, s, Other(Target(d))), Home(lib, s, Target(d));
    HomeSwap(lib, s, d);
    FinishTrace(w, s, cur, dst, d, f, 1, st, x);
  }

  /** The row stays behind until the old name is gone. */
  lemma CopiedKeeps(lib: Library, w: World, s: Sha, d: Direction, f: Faults, st: Stats, x: World)
    requires Moving(lib, w, s, d) && w.tracks[s] in w.names && Home(lib, s, Target(d)) !in w.names
    requires x in MoveByCopy(w, s, Home(lib, s, Other(Target(d))), Home(lib, s, Target(d)), d, f, st).trace
    ensures Recoverable(See(lib, w, s), Target(d)) ==> Recoverable(See(lib, x, s), Target(d))
  {
    HomeSwap(lib, s, d);
    CopyTrace(w, s, Home(lib, s, Other(Target(d))), Home(lib, s, Target(d)), d, f, st, x);
  }

  lemma FileKeepsBoth(lib: Library, w: World, s: Sha, d: Direction, f: Faults, st: Stats, x: World)
    requires Moving(lib, w, s, d)
    requires x in MoveFile(w, s, Home(lib, s, Other(Target(d))), Home(lib, s, Target(d)), d, f, st).trace
    ensures StepKeeps(See(lib, w, s), See(lib, x, s), Target(d), f)
  {
    if x != w {
      match LinkCall(w, Home(lib, s, Other(Target(d))), Home(lib, s, Target(d)), f.link)
      case Linked => LinkedKeeps(lib, w, s, d, f, st, x);
      case Exists => ExistsKeeps(lib, w, s, d, f, st.(alreadyApplied := st.alreadyApplied + 1), x);
      case OtherDevice => CopiedKeeps(lib, w, s, d, f, st, x);
      case _ =>
    }
  }

  lemma MoveKeepsBoth(lib: Library, w: World, job: Job, st: Stats, x: World)
    requires Inv(lib, w) && job.sha in lib.tails && job.sha in w.tracks
    requires x in MoveOne(lib.root, w, job, st).trace
    ensures StepKeeps(See(lib, w, job.sha), See(lib, x, job.sha), Target(job.dir), job.faults)
  {
    assert Ok(lib, w, job.sha);
    MoveAtHome(lib, w, job, st);
    if w.tracks[job.sha] == Home(lib, job.sha, Target(job.dir)) {
      assert See(lib, x, job.sha).(resident := IsResident(w, job.sha)) == See(lib, w, job.sha);
    } else {
      FileKeepsBoth(lib, w, job.sha, job.dir, job.faults, st, x);
    }
  }

  /** Through any turn, a track that has a row keeps it, and its view changes by
      its own job only. */
  lemma TurnKeepsBoth(lib: Library, w: World, job: Job, st: Stats, x: World, s: Sha)
    requires Inv(lib, w) && job.sha in lib.tails && s in lib.tails && s in w.tracks
    requires x in Turn(lib.root, w, job, st).trace
    ensures Inv(lib, x) && s in x.tracks
    ensures if job.sha == s then StepKeeps(See(lib, w, s), See(lib, x, s), Target(job.dir), job.faults)
            else See(lib, x, s) == See(lib, w, s)
  {
    TurnKeepsInv(lib, w, job, st, x);
    if job.sha in w.tracks {
      MoveStep(lib, w, job, st, x);
      Frame(lib, w, x, job.sha);
      if job.sha == s { MoveKeepsBoth(lib, w, job, st, x); }
    }
  }

  /** Every job on s moves it towards want, and its unlink works. */
  ghost predicate Unlinks(jobs: seq<Job>, s: Sha, want: Location) {
    forall i :: 0 <= i < |jobs| && jobs[i].sha == s ==> Target(jobs[i].dir) == want && !jobs[i].faults.unlink
  }

  /** In whatever state a rotation crashes, whatever else fails. */
  lemma CrashRecoverable(lib: Library, w: World, jobs: seq<Job>, st: Stats, x: World, s: Sha, want: Location)
    requires Inv(lib, w) && Known(lib, jobs) && s in lib.tails && s in w.tracks
    requires Unlinks(jobs, s, want) && Recoverable(See(lib, w, s), want)
    requires x in Run(lib.root, w, jobs, st).trace
    ensures Recoverable(See(lib, x, s), want)
  {
    var p := y => Inv(lib, y) && s in y.tracks && Recoverable(See(lib, y, s), want);
    var q := (job: Job) =>
      job.sha in lib.tails && (job.sha == s ==> Target(job.dir) == want && !job.faults.unlink);
    forall y: World, job: Job, u: Stats, z: World | p(y) && q(job) && z in Turn(lib.root, y, job, u).trace
      ensures p(z)
    {
      TurnKeepsBoth(lib, y, job, u, z, s);
    }
    RunInvariant(lib.root, w, jobs, st, x, p, q);
  }

  ghost predicate SameDevice(jobs: seq<Job>, s: Sha) {
    forall i :: 0 <= i < |jobs| && jobs[i].sha == s ==> !jobs[i].faults.link.CrossDevice?
  }

  /** On one filesystem no second file ever appears. */
  lemma CrashOneFile(lib: Library, w: World, jobs: seq<Job>, st: Stats, x: World, s: Sha)
    requires Inv(lib, w) && Known(lib, jobs) && s in lib.tails && s in w.tracks
    requires SameDevice(jobs, s) && OneFile(See(lib, w, s))
    requires x in Run(lib.root, w, jobs, st).trace
    ensures OneFile(See(lib, x, s))
  {
    var p := y => Inv(lib, y) && s in y.tracks && OneFile(See(lib, y, s));
    var q := (job: Job) => job.sha in lib.tails && (job.sha == s ==> !job.faults.link.CrossDevice?);
    forall y: World, job: Job, u: Stats, z: World | p(y) && q(job) && z in Turn(lib.root, y, job, u).trace
      ensures p(z)
    {
      TurnKeepsBoth(lib, y, job, u, z, s);
    }
    RunInvariant(lib.root, w, jobs, st, x, p, q);
  }

  /** A scan that keeps the row leaves a recoverable track on the right side or
      with a move to be planned. */
  lemma RescannedSide(lib: Library, x: World, y: World, s: Sha, want: Location)
    requires s in lib.tails && Rescanned(lib, x, y) && s in y.tracks && Recoverable(See(lib, x, s), want)
    ensures See(lib, y, s).side == want || (See(lib, y, s).resident <==> want.Archive?)
    ensures See(lib, y, s).archive == See(lib, x, s).archive && See(lib, y, s).kept == See(lib, x, s).kept
  {
    HomeSwap(lib, s, Promote);
    assert RowKept(lib, y, s);
  }

  /** A rotation moves a settled track towards the manifest, with a working
      unlink, and stops in any state; a scan gives it any row it may. */
  ghost predicate OneCycle(lib: Library, w: World, manifest: set<Sha>, jobs: seq<Job>, st: Stats,
                           crashed: World, scanned: World, s: Sha) {
    && Settled(lib, w, s) && manifest <= lib.tails.Keys && Plan(w, manifest, jobs)
    && (forall i :: 0 <= i < |jobs| && jobs[i].sha == s ==> !jobs[i].faults.unlink)
    && crashed in Run(lib.root, w, jobs, st).trace
    && Rescanned(lib, crashed, scanned) && s in scanned.tracks
  }

  /** Where the crash and the scan leave the track. */
  lemma AfterOneCycle(lib: Library, w: World, manifest: set<Sha>, jobs: seq<Job>, st: Stats,
                      crashed: World, scanned: World, s: Sha)
    requires OneCycle(lib, w, manifest, jobs, st, crashed, scanned, s)
    ensures Inv(lib, crashed) && Inv(lib, scanned) && RowKept(lib, scanned, s)
    ensures var v, want := See(lib, scanned, s), Wanted(manifest, s);
            && (v.side == want || (v.resident <==> want.Archive?))
            && (SameDevice(jobs, s) ==> OneFile(v))
  {
    var want := Wanted(manifest, s);
    PlanKnown(lib, w, manifest, jobs);
    PlannedMove(lib, w, manifest, jobs, s) by { assert Ok(lib, w, s); }
    RunKeepsInv(lib, w, jobs, st, crashed);
    RescanKeepsInv(lib, crashed, scanned);
    CrashRecoverable(lib, w, jobs, st, crashed, s, want);
    RescannedSide(lib, crashed, scanned, s, want);
    if SameDevice(jobs, s) { CrashOneFile(lib, w, jobs, st, crashed, s); }
  }

  /** A rotation may stop in any state, while copying or between any two
      writes, with any call but the unlink failing. Whatever path the next scan
      gives the track, a rotation that counts no error for it then puts it
      right. */
  lemma OneCrash(lib: Library, w: World, manifest: set<Sha>, jobs: seq<Job>, st: Stats, crashed: World, scanned: World,
                 again: set<Sha>, rerun: seq<Job>, st2: Stats, s: Sha)
    requires OneCycle(lib, w, manifest, jobs, st, crashed, scanned, s)
    requires again <= lib.tails.Keys && (s in again <==> s in manifest) && Plan(scanned, again, rerun)
    requires CleanFor(lib.root, scanned, rerun, st2, s)
    ensures Good(See(lib, Run(lib.root, scanned, rerun, st2).Final(), s), s, Wanted(manifest, s))
  {
    AfterOneCycle(lib, w, manifest, jobs, st, crashed, scanned, s);
    ErrorFreeRerun(lib, scanned, again, rerun, st2, s);
  }

  /** If the crashed rotation did not copy the track across devices, the next
      one cannot be blocked: it counts no error for it when no call fails. */
  lemma OneCrashSameDevice(lib: Library, w: World, manifest: set<Sha>, jobs: seq<Job>, st: Stats,
                           crashed: World, scanned: World, again: set<Sha>, rerun: seq<Job>, st2: Stats, s: Sha)
    requires OneCycle(lib, w, manifest, jobs, st, crashed, scanned, s) && SameDevice(jobs, s)
    requires again <= lib.tails.Keys && (s in again <==> s in manifest) && Plan(scanned, again, rerun)
    requires WorksFor(rerun, s)
    ensures CleanFor(lib.root, scanned, rerun, st2, s)
    ensures Good(See(lib, Run(lib.root, scanned, rerun, st2).Final(), s), s, Wanted(manifest, s))
  {
    AfterOneCycle(lib, w, manifest, jobs, st, crashed, scanned, s);
    CleanExactly(lib, scanned, again, rerun, st2, s);
    OneCrash(lib, w, manifest, jobs, st, crashed, scanned, again, rerun, st2, s);
  }

  // ---- an unfinished copy --------------------------------------------------

  /** An unfinished copy lies where the track is wanted. */
  predicate Torn(lib: Library, w: World, s: Sha, want: Location)
    requires s in lib.tails
  {
    var f := Lookup(w, Home(lib, s, want));
    f.Some? && f.value.data == Partial
  }

  lemma TornTurn(lib: Library, w: World, job: Job, st: Stats, x: World, s: Sha, want: Location)
    requires Inv(lib, w) && job.sha in lib.tails && s in lib.tails && Torn(lib, w, s, want)
    requires x in Turn(lib.root, w, job, st).trace
    ensures Torn(lib, x, s, want)
  {
    if job.sha in w.tracks {
      MoveStep(lib, w, job, st, x);
      assert Home(lib, s, want) in x.names;
    }
  }

  lemma TornStays(lib: Library, w: World, x: World, s: Sha, want: Location)
    requires Inv(lib, w) && Happens(lib, w, x) && s in lib.tails && Torn(lib, w, s, want)
    ensures Torn(lib, x, s, want)
  {
    if !Rescanned(lib, w, x) {
      var jobs: seq<Job>, st: Stats :| Known(lib, jobs) && x in Run(lib.root, w, jobs, st).trace;
      var p := y => Inv(lib, y) && Torn(lib, y, s, want);
      var q := (job: Job) => job.sha in lib.tails;
      forall y: World, job: Job, u: Stats, z: World | p(y) && q(job) && z in Turn(lib.root, y, job, u).trace
        ensures p(z)
      {
        TurnKeepsInv(lib, y, job, u, z);
        TornTurn(lib, y, job, u, z, s, want);
      }
      RunInvariant(lib.root, w, jobs, st, x, p, q);
    }
  }

  lemma TornElsewhere(lib: Library, w: World, s: Sha, want: Location)
    requires Inv(lib, w) && s in lib.tails && Torn(lib, w, s, want) && s in w.tracks
    ensures See(lib, w, s).side != want
  {
    assert Ok(lib, w, s);
  }

  /** An interrupted copy across devices blocks its track for good: over any
      history of scans and rotations that follows, whatever works, the copy
      stays and the row never gets there. */
  lemma {:induction false} TornCopyBlocks(lib: Library, history: seq<World>, n: nat, s: Sha, want: Location)
    requires n < |history| && Inv(lib, history[0])
    requires forall i :: 0 <= i < |history| - 1 ==> Happens(lib, history[i], history[i + 1])
    requires s in lib.tails && Torn(lib, history[0], s, want)
    ensures Torn(lib, history[n], s, want)
    ensures s in history[n].tracks ==> See(lib, history[n], s).side != want
  {
    if n == 0 {
    } else {
      TornCopyBlocks(lib, history, n - 1, s, want);
      HistoryKeepsInv(lib, history, n - 1);
      assert Happens(lib, history[n - 1], history[n - 1 + 1]);
      TornStays(lib, history[n - 1], history[n], s, want);
    }
    HistoryKeepsInv(lib, history, n);
    if s in history[n].tracks { TornElsewhere(lib, history[n], s, want); }
  }

  // ---- what the comments promise and the code does not do -----------------

  /** rotate.c says a crash between unlink and the database update is noticed
      by looking at the destination. Without a scan it is not: as long as the
      row names the old path, every rotation fails on it and changes nothing. */
  lemma NoRecoveryWithoutScan(root: string, w: World, s: Sha, d: Direction, f: Faults, st: Stats)
    requires s in w.tracks && w.tracks[s] !in w.names && Swap(root, w.tracks[s], d).Some?
    ensures MoveOne(root, w, Job(s, d, f), st).Final() == w
    ensures MoveOne(root, w, Job(s, d, f), st).stats.errors == st.errors + 1
  {}

  // A library of one track, and five states of its disk and tables.
  const LIB := Library("/m", map["s" := "a.flac"])
  const ARCHIVED := Home(LIB, "s", Archive)
  const KEPT := Home(LIB, "s", Resident)
  const JOB := Job("s", Promote, NO_FAULTS)
  const ZERO := Stats(0, 0, 0, 0, 0, 0, 0, 0)
  const START := World(map[ARCHIVED := File(0, Audio("s"))], 1, map["s" := ARCHIVED], map[])
  const CRASHED := AddLink(START, ARCHIVED, KEPT)
  const SCANNED := SetPath(CRASHED, "s", KEPT)
  const RERUN := SetLocation(SCANNED, "s", Promote)
  const FLIPPED := SetPath(RERUN, "s", ARCHIVED)

  lemma StartPlan()
    ensures Settled(LIB, START, "s") && Plan(START, {"s"}, [JOB])
  {
    HomeSwap(LIB, "s", Promote);
    assert See(LIB, START, "s") == View(Archive, false, Some(File(0, Audio("s"))), None);
    assert ToAdd(START, {"s"}) == {"s"} && ToRemove(START, {"s"}) == {};
    assert [JOB][0].sha == "s";
    assert Mentions([JOB], "s");
  }

  /** The states of a run of one job are those of its move. */
  lemma OneJob(w: World, job: Job, k: nat)
    requires k < |MoveOne("/m", w, job, ZERO).trace|
    ensures MoveOne("/m", w, job, ZERO).trace[k] in Run("/m", w, [job], ZERO).trace
  {
    assert MoveOne("/m", w, job, ZERO).trace[k] in Turn("/m", w, job, ZERO).trace;
  }

  lemma CrashAfterLink()
    ensures CRASHED in Run("/m", START, [JOB], ZERO).trace && Rescanned(LIB, CRASHED, SCANNED)
  {
    HomeSwap(LIB, "s", Promote);
    OneJob(START, JOB, 1);
  }

  lemma RecoveryPlan()
    ensures Rescanned(LIB, CRASHED, SCANNED) && Plan(SCANNED, {"s"}, [JOB])
  {
    HomeSwap(LIB, "s", Promote);
    assert ToAdd(SCANNED, {"s"}) == {"s"} && ToRemove(SCANNED, {"s"}) == {};
    assert [JOB][0].sha == "s";
    assert Mentions([JOB], "s");
  }

  lemma RecoveryRun()
    ensures Run("/m", SCANNED, [JOB], ZERO).Final() == RERUN
  {
    HomeSwap(LIB, "s", Promote);
    assert MoveOne("/m", SCANNED, JOB, ZERO).Final() == RERUN;
    assert Run("/m", RERUN, [], ZERO.(alreadyApplied := 1)).Final() == RERUN;
  }

  lemma FlippedStuck()
    ensures Rescanned(LIB, RERUN, FLIPPED)
    ensures Plan(FLIPPED, {"s"}, []) && Stuck(See(LIB, FLIPPED, "s"), Resident)
  {
    HomeSwap(LIB, "s", Promote);
    assert IsResident(FLIPPED, "s") && See(LIB, FLIPPED, "s").resident && See(LIB, FLIPPED, "s").side.Archive?;
    assert ResidentRows(FLIPPED) == {"s"} == OnDisk(FLIPPED);
  }

  /** From a settled library: a crash after the link, a scan that picks the new
      name, a run that recovers by rewriting the row and leaves the old link;
      a later scan may point the row back at it, and then no rotation corrects
      it. */
  lemma RecoveredTrackCanFlip()
    ensures Settled(LIB, START, "s") && Plan(START, {"s"}, [JOB]) && CRASHED in Run("/m", START, [JOB], ZERO).trace
    ensures Rescanned(LIB, CRASHED, SCANNED)
    ensures Plan(SCANNED, {"s"}, [JOB]) && Run("/m", SCANNED, [JOB], ZERO).Final() == RERUN
    ensures Rescanned(LIB, RERUN, FLIPPED)
    ensures Plan(FLIPPED, {"s"}, []) && Stuck(See(LIB, FLIPPED, "s"), Resident)
  {
    StartPlan();
    CrashAfterLink();
    RecoveryPlan();
    RecoveryRun();
    FlippedStuck();
  }

  // The same library on two filesystems, in two states of the copy.
  const CROSS := Job("s", Promote, NO_FAULTS.(link := CrossDevice))
  const COPYING := CreateEmpty(START, KEPT)
  const COPIED := Fill(COPYING, KEPT, Audio("s"))

  /** A crash in the middle of the copy leaves it torn. */
  lemma CrashWhileCopying()
    ensures COPYING in Run("/m", START, [CROSS], ZERO).trace && Torn(LIB, COPYING, "s", Resident)
  {
    HomeSwap(LIB, "s", Promote);
    OneJob(START, CROSS, 1);
  }

  lemma CopiedPlan()
    ensures Plan(COPIED, {"s"}, [CROSS])
  {
    HomeSwap(LIB, "s", Promote);
    assert ToAdd(COPIED, {"s"}) == {"s"} && ToRemove(COPIED, {"s"}) == {};
    assert [CROSS][0].sha == "s";
    assert Mentions([CROSS], "s");
  }

  /** A crash between the copy and the unlink leaves two files: when the scan
      stays with the old one the track is stuck, and the next rotation counts
      an error and changes nothing. */
  lemma CrashAfterCopy()
    ensures COPIED in Run("/m", START, [CROSS], ZERO).trace && Rescanned(LIB, COPIED, COPIED)
    ensures Plan(COPIED, {"s"}, [CROSS]) && Stuck(See(LIB, COPIED, "s"), Resident)
    ensures MoveOne("/m", COPIED, CROSS, ZERO).Final() == COPIED
    ensures MoveOne("/m", COPIED, CROSS, ZERO).stats.errors == 1
  {
    HomeSwap(LIB, "s", Promote);
    OneJob(START, CROSS, 2);
    CopiedPlan();
  }

  /** Nor may the unlink fail: the run records the move all the same, and a scan
      that walks back to the old name leaves the track stuck. */
  lemma UnlinkFailureCanFlip()
    ensures RERUN in Run("/m", START, [JOB.(faults := NO_FAULTS.(unlink := true))], ZERO).trace
    ensures Rescanned(LIB, RERUN, FLIPPED) && Stuck(See(LIB, FLIPPED, "s"), Resident)
  {
    HomeSwap(LIB, "s", Promote);
    FlippedStuck();
    OneJob(START, JOB.(faults := NO_FAULTS.(unlink := true)), 4);
  }
}
