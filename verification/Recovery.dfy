/** Crashes, rescans and reruns of the rotation: what every reachable state
    keeps, and exactly when a rescan followed by a fault-free run puts a track
    where the manifest wants it. */
module Recovery {
  import opened Prelude
  import opened Paths
  import opened Rotate
  import opened RotatePlan

  /** Every track's file lives at <root>/archive/<tail> or
      <root>/resident/<tail>, for a tail of its own. */
  datatype Library = Library(root: string, tails: map<Sha, string>)

  ghost predicate ValidLibrary(lib: Library) {
    forall s, t :: s in lib.tails && t in lib.tails && lib.tails[s] == lib.tails[t] ==> s == t
  }

  function Home(lib: Library, s: Sha, l: Location): Path
    requires s in lib.tails
  {
    At(lib.root, if l.Resident? then "resident" else "archive", lib.tails[s])
  }

  function Other(l: Location): Location { if l.Resident? then Archive else Resident }

  lemma HomesDistinct(lib: Library, s: Sha, l: Location, t: Sha, m: Location)
    requires ValidLibrary(lib) && s in lib.tails && t in lib.tails
    requires Home(lib, s, l) == Home(lib, t, m)
    ensures s == t && l == m
  {
    if l != m {
      TreesDisjoint(lib.root, lib.tails[s], lib.tails[t]);
      TreesDisjoint(lib.root, lib.tails[t], lib.tails[s]);
    } else {
      TailUnique(lib.root, if l.Resident? then "resident" else "archive", lib.tails[s], lib.tails[t]);
    }
  }

  lemma HomeSwap(lib: Library, s: Sha, d: Direction)
    requires s in lib.tails
    ensures Home(lib, s, Archive) != Home(lib, s, Resident)
    ensures Swap(lib.root, Home(lib, s, Other(Target(d))), d) == Some(Home(lib, s, Target(d)))
    ensures Swap(lib.root, Home(lib, s, Target(d)), d) == None
    ensures Swap(lib.root, Home(lib, s, Target(d)), Reverse(d)) == Some(Home(lib, s, Other(Target(d))))
  {
    TreesDisjoint(lib.root, lib.tails[s], lib.tails[s]);
    SwapForm(lib.root, Home(lib, s, Other(Target(d))), From(d), To(d));
    SwapUndo(lib.root, Home(lib, s, Other(Target(d))), d);
  }

  // ---- what one track sees -------------------------------------------------

  /** Where the row of a track points, what residency_state says, and the
      files at its two homes. */
  datatype View = View(side: Location, resident: bool, archive: Option<File>, kept: Option<File>) {
    function Here(l: Location): Option<File> { if l.Resident? then kept else archive }
    function With(l: Location, f: Option<File>): View { if l.Resident? then this.(kept := f) else this.(archive := f) }
  }

  function Lookup(w: World, p: Path): Option<File> { if p in w.names then Some(w.names[p]) else None }

  predicate IsResident(w: World, s: Sha) { s in w.residency && w.residency[s] == Resident }

  predicate HasHome(lib: Library, w: World, s: Sha) {
    s in lib.tails && s in w.tracks
    && (w.tracks[s] == Home(lib, s, Archive) || w.tracks[s] == Home(lib, s, Resident))
  }

  /** Without a row the side is Archive and means nothing. */
  function See(lib: Library, w: World, s: Sha): View
    requires s in lib.tails
  {
    View(if s in w.tracks && w.tracks[s] == Home(lib, s, Resident) then Resident else Archive, IsResident(w, s),
         Lookup(w, Home(lib, s, Archive)), Lookup(w, Home(lib, s, Resident)))
  }

  // ---- the invariant of every run ------------------------------------------

  predicate Holds(f: Option<File>, s: Sha) { f.Some? && f.value.data == Audio(s) }

  /** A track's content is at one of its homes, and its homes hold nothing else
      but unfinished copies. */
  predicate Sound(v: View, s: Sha) {
    && (Holds(v.archive, s) || Holds(v.kept, s))
    && (v.archive.Some? ==> v.archive.value.data in {Audio(s), Partial})
    && (v.kept.Some? ==> v.kept.value.data in {Audio(s), Partial})
  }

  /** A row that names a file names its content. */
  predicate Named(v: View, s: Sha) {
    v.Here(v.side).Some? ==> Holds(v.Here(v.side), s)
  }

  /** A track need not have a row, but its content is safe. */
  predicate Ok(lib: Library, w: World, s: Sha) {
    && s in lib.tails && Sound(See(lib, w, s), s)
    && (s in w.tracks ==> HasHome(lib, w, s) && Named(See(lib, w, s), s))
  }

  ghost predicate IsHome(lib: Library, s: Sha, p: Path)
    requires s in lib.tails
  {
    p == Home(lib, s, Archive) || p == Home(lib, s, Resident)
  }

  /** Audio is found at the homes of its track and nowhere else. */
  ghost predicate AtHome(lib: Library, w: World, p: Path) {
    p in w.names && w.names[p].data.Audio? ==>
      w.names[p].data.sha in lib.tails && IsHome(lib, w.names[p].data.sha, p)
  }

  ghost predicate Inv(lib: Library, w: World) {
    && ValidLibrary(lib) && ValidInodes(w)
    && (forall s :: s in lib.tails ==> Ok(lib, w, s))
    && (forall p :: AtHome(lib, w, p))
    && (forall s :: s in w.residency ==> s in lib.tails)
    && (forall o :: o in w.tracks && o !in lib.tails ==> w.tracks[o] in w.names && w.names[w.tracks[o]].data == Partial)
  }

  /** x differs from w only in what concerns track s, and leaves unfinished
      copies alone. */
  ghost predicate OnlyTouches(lib: Library, w: World, x: World, s: Sha)
    requires s in lib.tails
  {
    && s in w.tracks && s in x.tracks
    && x.tracks == w.tracks[s := x.tracks[s]]
    && (forall t :: t != s ==> SameRow(w.residency, x.residency, t))
    && (forall p :: !IsHome(lib, s, p) ==> Lookup(x, p) == Lookup(w, p))
    && (forall p :: p in w.names && w.names[p].data == Partial ==> p in x.names && x.names[p] == w.names[p])
  }

  lemma Frame(lib: Library, w: World, x: World, s: Sha)
    requires Inv(lib, w) && s in lib.tails && OnlyTouches(lib, w, x, s)
    requires ValidInodes(x) && Ok(lib, x, s)
    ensures Inv(lib, x)
    ensures forall t :: t in lib.tails && t != s ==> See(lib, x, t) == See(lib, w, t)
  {
    forall t | t in lib.tails && t != s ensures Ok(lib, x, t) && See(lib, x, t) == See(lib, w, t) {
      assert Ok(lib, w, t);
      FrameOther(lib, w, x, s, t);
    }
    forall o | o in x.tracks && o !in lib.tails ensures x.tracks[o] in x.names && x.names[x.tracks[o]].data == Partial {
      assert o in w.tracks && x.tracks[o] == w.tracks[o];
    }
    forall p ensures AtHome(lib, x, p) {
      assert AtHome(lib, w, p);
      if !IsHome(lib, s, p) { assert Lookup(x, p) == Lookup(w, p); }
    }
    forall t | t in x.residency ensures t in lib.tails {
      if t != s { assert SameRow(w.residency, x.residency, t); }
    }
  }

  lemma FrameOther(lib: Library, w: World, x: World, s: Sha, t: Sha)
    requires ValidLibrary(lib) && s in lib.tails && t in lib.tails && t != s
    requires OnlyTouches(lib, w, x, s)
    ensures See(lib, x, t) == See(lib, w, t)
    ensures (t in x.tracks <==> t in w.tracks) && (HasHome(lib, w, t) ==> HasHome(lib, x, t))
  {
    forall l, m ensures Home(lib, t, l) != Home(lib, s, m) {
      if Home(lib, t, l) == Home(lib, s, m) { HomesDistinct(lib, t, l, s, m); }
    }
    assert Lookup(x, Home(lib, t, Archive)) == Lookup(w, Home(lib, t, Archive));
    assert Lookup(x, Home(lib, t, Resident)) == Lookup(w, Home(lib, t, Resident));
    assert SameRow(w.residency, x.residency, t);
  }

  // ---- every step keeps the invariant --------------------------------------

  /** x is w with the file `file` at track s's target home, perhaps with the
      source name dropped, and perhaps with the row already rewritten. */
  ghost predicate Stage(lib: Library, w: World, x: World, s: Sha, d: Direction, file: File)
    requires s in lib.tails
  {
    var cur, dst := Home(lib, s, Other(Target(d))), Home(lib, s, Target(d));
    && (dst in w.names ==> file == w.names[dst])
    && file.data in {Audio(s), Partial}
    && (x.names == w.names[dst := file] || (file.data == Audio(s) && x.names == w.names[dst := file] - {cur}))
    && (x.tracks == w.tracks || (file.data == Audio(s) && x.tracks == w.tracks[s := dst]))
    && (x.residency == w.residency || x.residency == w.residency[s := Target(d)])
  }

  lemma StageTouches(lib: Library, w: World, x: World, s: Sha, d: Direction, file: File)
    requires Ok(lib, w, s) && s in w.tracks
    requires w.tracks[s] == Home(lib, s, Other(Target(d))) && w.tracks[s] in w.names
    requires Stage(lib, w, x, s, d, file)
    ensures OnlyTouches(lib, w, x, s)
  {
    HomeSwap(lib, s, d);
  }

  lemma StageSound(lib: Library, w: World, x: World, s: Sha, d: Direction, file: File)
    requires Ok(lib, w, s) && s in w.tracks
    requires w.tracks[s] == Home(lib, s, Other(Target(d))) && w.tracks[s] in w.names
    requires Stage(lib, w, x, s, d, file)
    ensures OnlyTouches(lib, w, x, s) && Ok(lib, x, s)
  {
    StageTouches(lib, w, x, s, d, file);
    HomeSwap(lib, s, d);
    assert w.names[w.tracks[s]].data == Audio(s);
  }

  /** A state in which nothing has moved yet. */
  lemma RowSound(lib: Library, w: World, x: World, s: Sha, d: Direction)
    requires ValidInodes(w) && Ok(lib, w, s) && s in w.tracks
    requires x == w || x == SetLocation(w, s, d)
    ensures OnlyTouches(lib, w, x, s) && ValidInodes(x) && Ok(lib, x, s)
  {
    assert w.tracks == w.tracks[s := w.tracks[s]];
    assert See(lib, x, s).(resident := IsResident(w, s)) == See(lib, w, s);
  }

  /** A move from one home of s to the other starts in w. */
  ghost predicate Moving(lib: Library, w: World, s: Sha, d: Direction) {
    ValidInodes(w) && Ok(lib, w, s) && s in w.tracks && w.tracks[s] == Home(lib, s, Other(Target(d)))
  }

  lemma LinkedStep(lib: Library, w: World, s: Sha, d: Direction, f: Faults, st: Stats, x: World)
    requires Moving(lib, w, s, d) && w.tracks[s] in w.names && Home(lib, s, Target(d)) !in w.names
    requires var cur, dst := Home(lib, s, Other(Target(d))), Home(lib, s, Target(d));
             x in FinishLinked(AddLink(w, cur, dst), s, cur, dst, d, f, 0, st).trace
    ensures OnlyTouches(lib, w, x, s) && Ok(lib, x, s)
  {
    var cur, dst := Home(lib, s, Other(Target(d))), Home(lib, s, Target(d));
    HomeSwap(lib, s, d);
    FinishTrace(AddLink(w, cur, dst), s, cur, dst, d, f, 0, st, x);
    StageSound(lib, w, x, s, d, w.names[cur]);
  }

  lemma ExistsStep(lib: Library, w: World, s: Sha, d: Direction, f: Faults, st: Stats, x: World)
    requires Moving(lib, w, s, d) && w.tracks[s] in w.names && Home(lib, s, Target(d)) in w.names
    requires w.names[w.tracks[s]].ino == w.names[Home(lib, s, Target(d))].ino
    requires var cur, dst := Home(lib, s, Other(Target(d))), Home(lib, s, Target(d));
             x in FinishLinked(w, s, cur, dst, d, f, 1, st).trace
    ensures OnlyTouches(lib, w, x, s) && Ok(lib, x, s)
  {
    var cur, dst := Home(lib, s, Other(Target(d))), Home(lib, s, Target(d));
    HomeSwap(lib, s, d);
    FinishTrace(w, s, cur, dst, d, f, 1, st, x);
    assert w.names[cur] == w.names[dst] && w.names == w.names[dst := w.names[dst]];
    StageSound(lib, w, x, s, d, w.names[dst]);
  }

  lemma FileStep(lib: Library, w: World, s: Sha, d: Direction, f: Faults, st: Stats, x: World)
    requires Moving(lib, w, s, d)
    requires x in MoveFile(w, s, Home(lib, s, Other(Target(d))), Home(lib, s, Target(d)), d, f, st).trace
    requires ValidInodes(x)
    ensures OnlyTouches(lib, w, x, s) && Ok(lib, x, s)
  {
    if x == w {
      RowSound(lib, w, x, s, d);
    } else {
      match LinkCall(w, Home(lib, s, Other(Target(d))), Home(lib, s, Target(d)), f.link)
      case Linked => LinkedStep(lib, w, s, d, f, st, x);
      case Exists => ExistsStep(lib, w, s, d, f, st.(alreadyApplied := st.alreadyApplied + 1), x);
      case OtherDevice => CopyStep(lib, w, s, d, f, st, x);
      case _ =>
    }
  }

  /** The copy is there, unfinished or not, and the move may have gone on. */
  lemma CopiedSound(lib: Library, w: World, s: Sha, d: Direction, x: World, file: File)
    requires Moving(lib, w, s, d) && w.tracks[s] in w.names && Home(lib, s, Target(d)) !in w.names
    requires file.data in {Audio(s), Partial}
    requires var cur, dst := Home(lib, s, Other(Target(d))), Home(lib, s, Target(d));
             || (x.names == w.names[dst := file] && x.tracks == w.tracks && x.residency == w.residency)
             || (file.data == Audio(s)
                 && Recorded(Unlink(w.(names := w.names[dst := file]), cur), x.(nextIno := w.nextIno), s, dst, d))
    ensures OnlyTouches(lib, w, x, s) && Ok(lib, x, s)
  {
    StageSound(lib, w, x, s, d, file);
  }

  lemma CopyStep(lib: Library, w: World, s: Sha, d: Direction, f: Faults, st: Stats, x: World)
    requires Moving(lib, w, s, d) && w.tracks[s] in w.names && Home(lib, s, Target(d)) !in w.names
    requires x in MoveByCopy(w, s, Home(lib, s, Other(Target(d))), Home(lib, s, Target(d)), d, f, st).trace
    ensures OnlyTouches(lib, w, x, s) && Ok(lib, x, s)
  {
    var cur, dst := Home(lib, s, Other(Target(d))), Home(lib, s, Target(d));
    CopyTrace(w, s, cur, dst, d, f, st, x);
    var w1 := CreateEmpty(w, dst);
    var copied := File(w.nextIno, w.names[cur].data);
    assert Fill(w1, dst, w.names[cur].data).names == w.names[dst := copied];
    if x == w || x == Unlink(w1, dst) {
      assert x.names == w.names;
      BackAsItWas(lib, w, x, s);
    } else if x == w1 {
      CopiedSound(lib, w, s, d, x, File(w.nextIno, Partial));
    } else {
      CopiedSound(lib, w, s, d, x, copied);
    }
  }

  lemma BackAsItWas(lib: Library, w: World, x: World, s: Sha)
    requires Ok(lib, w, s) && s in w.tracks && x.names == w.names && x.tracks == w.tracks && x.residency == w.residency
    ensures OnlyTouches(lib, w, x, s) && Ok(lib, x, s)
  {
    assert See(lib, x, s) == See(lib, w, s);
    assert w.tracks == w.tracks[s := w.tracks[s]];
  }

  /** move_one on a track whose row names one of its homes. */
  lemma MoveAtHome(lib: Library, w: World, job: Job, st: Stats)
    requires HasHome(lib, w, job.sha)
    ensures w.tracks[job.sha] != Home(lib, job.sha, Target(job.dir)) ==>
              w.tracks[job.sha] == Home(lib, job.sha, Other(Target(job.dir)))
              && MoveOne(lib.root, w, job, st) ==
                 MoveFile(w, job.sha, w.tracks[job.sha], Home(lib, job.sha, Target(job.dir)), job.dir, job.faults, st)
    ensures w.tracks[job.sha] == Home(lib, job.sha, Target(job.dir)) ==>
              forall x :: x in MoveOne(lib.root, w, job, st).trace ==> x == w || x == SetLocation(w, job.sha, job.dir)
  {
    HomeSwap(lib, job.sha, job.dir);
  }

  lemma MoveStep(lib: Library, w: World, job: Job, st: Stats, x: World)
    requires Inv(lib, w) && job.sha in lib.tails && job.sha in w.tracks
    requires x in MoveOne(lib.root, w, job, st).trace
    ensures OnlyTouches(lib, w, x, job.sha) && ValidInodes(x) && Ok(lib, x, job.sha)
  {
    assert Ok(lib, w, job.sha);
    MoveAtHome(lib, w, job, st);
    MoveKeeps(lib.root, w, job, st, x);
    if w.tracks[job.sha] == Home(lib, job.sha, Target(job.dir)) {
      RowSound(lib, w, x, job.sha, job.dir);
    } else {
      FileStep(lib, w, job.sha, job.dir, job.faults, st, x);
    }
  }

  lemma TurnKeepsInv(lib: Library, w: World, job: Job, st: Stats, x: World)
    requires Inv(lib, w) && job.sha in lib.tails && x in Turn(lib.root, w, job, st).trace
    ensures Inv(lib, x) && x.tracks.Keys == w.tracks.Keys
  {
    if job.sha in w.tracks {
      MoveStep(lib, w, job, st, x);
      Frame(lib, w, x, job.sha);
    }
  }

  /** Jobs about tracks of the library. */
  ghost predicate Known(lib: Library, jobs: seq<Job>) {
    forall i :: 0 <= i < |jobs| ==> jobs[i].sha in lib.tails
  }

  /** Every state of a run, so every state a crash can leave, keeps the
      invariant, whatever fails. */
  lemma RunKeepsInv(lib: Library, w: World, jobs: seq<Job>, st: Stats, x: World)
    requires Inv(lib, w) && Known(lib, jobs) && x in Run(lib.root, w, jobs, st).trace
    ensures Inv(lib, x) && x.tracks.Keys == w.tracks.Keys
  {
    var p := y => Inv(lib, y) && y.tracks.Keys == w.tracks.Keys;
    var q := (job: Job) => job.sha in lib.tails;
    forall y: World, job: Job, u: Stats, z: World | p(y) && q(job) && z in Turn(lib.root, y, job, u).trace
      ensures p(z)
    {
      TurnKeepsInv(lib, y, job, u, z);
    }
    RunInvariant(lib.root, w, jobs, st, x, p, q);
  }

  /** The row of a track names a place that holds its content. */
  ghost predicate RowKept(lib: Library, w: World, s: Sha)
    requires s in lib.tails
  {
    HasHome(lib, w, s) && Holds(Lookup(w, w.tracks[s]), s)
  }

  /** The residency rows that are left when rows of tracks were deleted. */
  function Cascade(residency: map<Sha, Location>, tracks: map<Sha, Path>): map<Sha, Location> {
    map s | s in residency && s in tracks :: residency[s]
  }

  /** A completed scan: the disk is as it was, a track's row names some path
      that holds its content or is gone and its residency row with it, and the
      rows of unfinished copies come and go. */
  ghost predicate Rescanned(lib: Library, w: World, x: World) {
    && x.names == w.names && x.nextIno == w.nextIno && x.residency == Cascade(w.residency, x.tracks)
    && (forall s :: s in lib.tails && s in x.tracks ==> RowKept(lib, x, s))
    && (forall o :: o in x.tracks && o !in lib.tails ==> x.tracks[o] in x.names && x.names[x.tracks[o]].data == Partial)
  }

  lemma RescanKeepsInv(lib: Library, w: World, x: World)
    requires Inv(lib, w) && Rescanned(lib, w, x)
    ensures Inv(lib, x)
  {
    forall p ensures AtHome(lib, x, p) { assert AtHome(lib, w, p); }
    forall s | s in lib.tails ensures Ok(lib, x, s) {
      assert Ok(lib, w, s);
      assert See(lib, x, s).archive == See(lib, w, s).archive && See(lib, x, s).kept == See(lib, w, s).kept;
    }
  }

  /** One thing that happens to the library: a rotation towards a manifest,
      stopped by a crash in any of its states or completed, or a scan. */
  ghost predicate Happens(lib: Library, w: World, x: World) {
    || Rescanned(lib, w, x)
    || exists jobs: seq<Job>, st: Stats :: Known(lib, jobs) && x in Run(lib.root, w, jobs, st).trace
  }

  /** Over any history of crashed or completed rotations and scans, every
      track keeps its content at one of its homes. */
  lemma {:induction false} HistoryKeepsInv(lib: Library, history: seq<World>, n: nat)
    requires n < |history| && Inv(lib, history[0])
    requires forall i :: 0 <= i < |history| - 1 ==> Happens(lib, history[i], history[i + 1])
    ensures Inv(lib, history[n])
  {
    if n > 0 {
      HistoryKeepsInv(lib, history, n - 1);
      var w, x := history[n - 1], history[n];
      assert Happens(lib, history[n - 1], history[n - 1 + 1]);
      if Rescanned(lib, w, x) {
        RescanKeepsInv(lib, w, x);
      } else {
        var jobs: seq<Job>, st: Stats :| Known(lib, jobs) && x in Run(lib.root, w, jobs, st).trace;
        RunKeepsInv(lib, w, jobs, st, x);
      }
    }
  }
}
