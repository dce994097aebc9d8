/** rotate_run_ex in transcode mode: for every error-free planned run, which rows
    and which copies it leaves, also where tracks share a copy's path. */
module TranscodePlan {
  import opened Prelude
  import opened Paths
  import opened Jobs
  import opened Transcode

  // ---- the plan ------------------------------------------------------------

  predicate Present(w: World, s: Sha) {
    s in w.rows && w.rows[s].copy.Some? && w.rows[s].copy.value in w.files
  }

  ghost function OnDisk(w: World): set<Sha> {
    set s | s in w.rows && w.rows[s].resident && Present(w, s)
  }

  ghost function ToAdd(w: World, manifest: set<Sha>): set<Sha> { manifest - OnDisk(w) }

  ghost function ToRemove(w: World, manifest: set<Sha>): set<Sha> { OnDisk(w) - manifest }

  ghost predicate Plan(w: World, manifest: set<Sha>, jobs: seq<Job>) {
    CarryOut(jobs, ToAdd(w, manifest), ToRemove(w, manifest))
  }

  // ---- one error-free turn -------------------------------------------------

  function Look(w: World, p: Option<Path>): Option<Data> {
    if p.Some? && p.value in w.files then Some(w.files[p.value]) else None
  }

  /** x is w after sha's copy was made, or found. */
  ghost predicate Promoted(w: World, x: World, sha: Sha, dst: Path)
    requires sha in w.tracks
  {
    && x.tracks == w.tracks && x.rows == w.rows[sha := Row(true, Some(dst))]
    && (dst in w.files ==> x.files == w.files)
    && (dst !in w.files ==> w.tracks[sha] in w.files && x.files == w.files[dst := Encoded(w.files[w.tracks[sha]])])
  }

  lemma CleanPromote(c: Config, w: World, sha: Sha, f: Faults, st: Stats)
    requires PromoteOne(c, w, sha, f, st).stats.errors == st.errors
    ensures sha in w.tracks && Derived(c, w.tracks, sha).Some?
    ensures Promoted(w, PromoteOne(c, w, sha, f, st).Final(), sha, Derived(c, w.tracks, sha).value)
  {
  }

  lemma CleanDemote(w: World, sha: Sha, f: Faults, st: Stats)
    requires DemoteOne(w, sha, f, st).stats.errors == st.errors
    ensures DemoteOne(w, sha, f, st).Final() == Upsert(DropCopy(w, sha, f), sha, Row(false, None))
  {
  }

  lemma TurnEnds(c: Config, w: World, job: Job, st: Stats)
    ensures Turn(c, w, job, st).Final() == One(c, w, job, st).Final()
    ensures Turn(c, w, job, st).stats.errors == One(c, w, job, st).stats.errors
  {
  }

  lemma FirstTurn(c: Config, w: World, jobs: seq<Job>, st: Stats)
    requires jobs != []
    ensures var first := Turn(c, w, jobs[0], st);
            var rest := Run(c, first.Final(), jobs[1..], first.stats);
            Run(c, w, jobs, st).Final() == rest.Final() && Run(c, w, jobs, st).stats == rest.stats
  {
  }

  /** What a turn makes of the tables and the disk. */
  ghost predicate Turned(c: Config, w: World, x: World, job: Job) {
    if job.dir.Promote? then
      var dst := Derived(c, w.tracks, job.sha);
      job.sha in w.tracks && dst.Some? && Promoted(w, x, job.sha, dst.value)
    else
      x == Upsert(DropCopy(w, job.sha, job.faults), job.sha, Row(false, None))
  }

  lemma CleanTurn(c: Config, w: World, job: Job, st: Stats)
    requires Turn(c, w, job, st).stats.errors == st.errors
    ensures Turned(c, w, Turn(c, w, job, st).Final(), job)
  {
    TurnEnds(c, w, job, st);
    if job.dir.Promote? {
      CleanPromote(c, w, job.sha, job.faults, st);
    } else {
      CleanDemote(w, job.sha, job.faults, st);
    }
  }

  // ---- the rows ------------------------------------------------------------

  function RowOf(w: World, s: Sha): Option<Row> { if s in w.rows then Some(w.rows[s]) else None }

  /** The row a job leaves. */
  function NewRow(c: Config, w: World, job: Job): Row {
    if job.dir.Promote? then Row(true, Derived(c, w.tracks, job.sha)) else Row(false, None)
  }

  lemma TurnedRows(c: Config, w: World, x: World, job: Job)
    requires Turned(c, w, x, job)
    ensures x.tracks == w.tracks && x.rows == w.rows[job.sha := NewRow(c, w, job)]
  {
  }

  /** Every job's row is rewritten, and no other. */
  ghost predicate RowsWritten(c: Config, w: World, x: World, jobs: seq<Job>) {
    && x.tracks == w.tracks
    && (forall i :: 0 <= i < |jobs| ==>
          && RowOf(x, jobs[i].sha) == Some(NewRow(c, w, jobs[i]))
          && (jobs[i].dir.Promote? ==> Derived(c, w.tracks, jobs[i].sha).Some?))
    && (forall s :: !Mentions(jobs, s) ==> RowOf(x, s) == RowOf(w, s))
  }

  lemma RowsCons(c: Config, w: World, mid: World, x: World, jobs: seq<Job>)
    requires jobs != [] && DistinctJobs(jobs) && Turned(c, w, mid, jobs[0]) && RowsWritten(c, mid, x, jobs[1..])
    ensures RowsWritten(c, w, x, jobs)
  {
    var rest := jobs[1..];
    NotAgain(jobs, jobs[0].sha);
    TurnedRows(c, w, mid, jobs[0]);
    assert RowOf(x, jobs[0].sha) == RowOf(mid, jobs[0].sha);
    forall i | 0 < i < |jobs|
      ensures RowOf(x, jobs[i].sha) == Some(NewRow(c, w, jobs[i]))
      ensures jobs[i].dir.Promote? ==> Derived(c, w.tracks, jobs[i].sha).Some?
    {
      assert jobs[i] == rest[i - 1];
    }
    forall s | !Mentions(jobs, s) ensures RowOf(x, s) == RowOf(w, s) {
      assert jobs[0].sha != s;
      forall i | 0 <= i < |rest| ensures rest[i].sha != s { assert rest[i] == jobs[i + 1]; }
    }
  }

  lemma {:induction false} RowsAfter(c: Config, w: World, jobs: seq<Job>, st: Stats)
    requires DistinctJobs(jobs) && Run(c, w, jobs, st).stats.errors == st.errors
    ensures RowsWritten(c, w, Run(c, w, jobs, st).Final(), jobs)
    decreases |jobs|
  {
    if jobs == [] {
    } else {
      var first := Turn(c, w, jobs[0], st);
      FirstTurn(c, w, jobs, st);
      CleanTurn(c, w, jobs[0], st);
      NotAgain(jobs, jobs[0].sha);
      RowsAfter(c, first.Final(), jobs[1..], first.stats);
      RowsCons(c, w, first.Final(), Run(c, w, jobs, st).Final(), jobs);
    }
  }

  // ---- the copies ----------------------------------------------------------

  /** The job unlinks p. */
  ghost predicate Unlinks(w: World, job: Job, p: Path) {
    job.dir.Demote? && !job.faults.unlink && job.sha in w.rows && w.rows[job.sha].copy == Some(p)
  }

  ghost predicate SomeUnlinks(w: World, jobs: seq<Job>, p: Path) {
    exists i :: 0 <= i < |jobs| && Unlinks(w, jobs[i], p)
  }

  /** The job would put a copy at p. */
  predicate Makes(c: Config, w: World, job: Job, p: Path) {
    job.dir.Promote? && Derived(c, w.tracks, job.sha) == Some(p)
  }

  /** The first job that would, or |jobs|. */
  function FirstMaker(c: Config, w: World, jobs: seq<Job>, p: Path): (k: nat)
    ensures k <= |jobs| && (k < |jobs| ==> Makes(c, w, jobs[k], p))
    ensures forall i :: 0 <= i < k ==> !Makes(c, w, jobs[i], p)
  {
    if jobs == [] || Makes(c, w, jobs[0], p) then 0 else FirstMaker(c, w, jobs[1..], p) + 1
  }

  /** The original the copy at p would be encoded from. */
  ghost function Original(c: Config, w: World, jobs: seq<Job>, p: Path): Option<Data> {
    var k := FirstMaker(c, w, jobs, p);
    if k == |jobs| || jobs[k].sha !in w.tracks then None else Look(w, Some(w.tracks[jobs[k].sha]))
  }

  function CopyFrom(unlinked: bool, found: Option<Data>, original: Option<Data>): Option<Data> {
    if unlinked then None
    else if found.Some? then found
    else if original.Some? then Some(Encoded(original.value))
    else None
  }

  /** What lies at p after the jobs: nothing when one of them unlinks it, else
      what lay there, else the encoding of the first track it is derived for. */
  ghost function CopyAfter(c: Config, w: World, jobs: seq<Job>, p: Path): Option<Data> {
    CopyFrom(SomeUnlinks(w, jobs, p), Look(w, Some(p)), Original(c, w, jobs, p))
  }

  lemma DerivedNoOriginal(c: Config, w: World, s: Sha, t: Sha)
    requires Derived(c, w.tracks, s).Some? && Derived(c, w.tracks, t).Some?
    ensures Derived(c, w.tracks, s).value != w.tracks[t]
  {
    DerivedUnder(c, w.tracks, s);
    var tail := SwapTail(c.root, w.tracks[t], Promote);
    forall p | InTree(c.root, "resident", p) ensures p != At(c.root, "archive", tail) {
      assert p[|c.root| + 1] == 'r';
    }
  }

  lemma UnlinksCons(c: Config, w: World, mid: World, jobs: seq<Job>, p: Path)
    requires jobs != [] && DistinctJobs(jobs) && Turned(c, w, mid, jobs[0])
    ensures SomeUnlinks(w, jobs, p) <==> Unlinks(w, jobs[0], p) || SomeUnlinks(mid, jobs[1..], p)
  {
    var rest := jobs[1..];
    TurnedRows(c, w, mid, jobs[0]);
    forall i | 0 <= i < |rest| ensures Unlinks(mid, rest[i], p) <==> Unlinks(w, jobs[i + 1], p) {
      assert jobs[0].sha != jobs[i + 1].sha && rest[i] == jobs[i + 1];
    }
    if SomeUnlinks(w, jobs, p) && !Unlinks(w, jobs[0], p) {
      var i :| 0 <= i < |jobs| && Unlinks(w, jobs[i], p);
      assert Unlinks(mid, rest[i - 1], p);
    }
    if SomeUnlinks(mid, rest, p) {
      var i :| 0 <= i < |rest| && Unlinks(mid, rest[i], p);
      assert Unlinks(w, jobs[i + 1], p);
    }
  }

  lemma {:induction false} SameMaker(c: Config, w: World, mid: World, jobs: seq<Job>, p: Path)
    requires mid.tracks == w.tracks
    ensures FirstMaker(c, mid, jobs, p) == FirstMaker(c, w, jobs, p)
  {
    if jobs == [] {
    } else {
      SameMaker(c, w, mid, jobs[1..], p);
    }
  }

  lemma {:induction false} NoMaker(c: Config, w: World, jobs: seq<Job>, p: Path)
    requires forall i :: 0 <= i < |jobs| ==> jobs[i].dir.Demote?
    ensures FirstMaker(c, w, jobs, p) == |jobs|
  {
    if jobs == [] {
    } else {
      assert forall i :: 0 <= i < |jobs[1..]| ==> jobs[1..][i] == jobs[i + 1];
      NoMaker(c, w, jobs[1..], p);
    }
  }

  lemma OriginalKept(c: Config, w: World, mid: World, job: Job, s: Sha)
    requires job.dir.Promote? && Turned(c, w, mid, job) && Derived(c, w.tracks, s).Some?
    ensures Look(mid, Some(w.tracks[s])) == Look(w, Some(w.tracks[s]))
  {
    DerivedNoOriginal(c, w, job.sha, s);
  }

  /** The next maker is the same, and so is its original. */
  lemma OriginalCons(c: Config, w: World, mid: World, jobs: seq<Job>, p: Path)
    requires jobs != [] && jobs[0].dir.Promote? && Turned(c, w, mid, jobs[0]) && !Makes(c, w, jobs[0], p)
    ensures Original(c, mid, jobs[1..], p) == Original(c, w, jobs, p)
  {
    var rest := jobs[1..];
    SameMaker(c, w, mid, rest, p);
    var k := FirstMaker(c, w, rest, p);
    assert FirstMaker(c, w, jobs, p) == k + 1;
    if k < |rest| {
      assert rest[k] == jobs[k + 1];
      OriginalKept(c, w, mid, jobs[0], rest[k].sha);
    }
  }

  /** The job's own path holds something afterwards, any other what it held. */
  lemma MadeHere(c: Config, w: World, mid: World, job: Job, p: Path)
    requires job.dir.Promote? && Turned(c, w, mid, job)
    ensures !Makes(c, w, job, p) ==> Look(mid, Some(p)) == Look(w, Some(p))
    ensures Makes(c, w, job, p) ==> job.sha in w.tracks && Look(mid, Some(p)).Some?
    ensures Makes(c, w, job, p) ==>
              Look(mid, Some(p)) == CopyFrom(false, Look(w, Some(p)), Look(w, Some(w.tracks[job.sha])))
  {
  }

  lemma PromoteCons(c: Config, w: World, mid: World, jobs: seq<Job>, p: Path)
    requires jobs != [] && DistinctJobs(jobs) && jobs[0].dir.Promote? && Turned(c, w, mid, jobs[0])
    ensures CopyAfter(c, mid, jobs[1..], p) == CopyAfter(c, w, jobs, p)
  {
    UnlinksCons(c, w, mid, jobs, p);
    MadeHere(c, w, mid, jobs[0], p);
    if Makes(c, w, jobs[0], p) {
      assert FirstMaker(c, w, jobs, p) == 0;
    } else {
      OriginalCons(c, w, mid, jobs, p);
    }
  }

  lemma DemoteCons(c: Config, w: World, mid: World, jobs: seq<Job>, p: Path)
    requires jobs != [] && DistinctJobs(jobs) && Turned(c, w, mid, jobs[0])
    requires forall i :: 0 <= i < |jobs| ==> jobs[i].dir.Demote?
    ensures CopyAfter(c, mid, jobs[1..], p) == CopyAfter(c, w, jobs, p)
  {
    var rest := jobs[1..];
    assert forall i :: 0 <= i < |rest| ==> rest[i] == jobs[i + 1];
    UnlinksCons(c, w, mid, jobs, p);
    NoMaker(c, w, jobs, p);
    NoMaker(c, mid, rest, p);
  }

  /** The disk after every error-free run of promotions and then demotions. */
  lemma {:induction false} CopiesAfter(c: Config, w: World, jobs: seq<Job>, st: Stats, p: Path)
    requires DistinctJobs(jobs) && AddsFirst(jobs) && Run(c, w, jobs, st).stats.errors == st.errors
    ensures Look(Run(c, w, jobs, st).Final(), Some(p)) == CopyAfter(c, w, jobs, p)
    decreases |jobs|
  {
    if jobs == [] {
    } else {
      var first, rest := Turn(c, w, jobs[0], st), jobs[1..];
      FirstTurn(c, w, jobs, st);
      CleanTurn(c, w, jobs[0], st);
      NotAgain(jobs, jobs[0].sha);
      assert forall i :: 0 <= i < |rest| ==> rest[i] == jobs[i + 1];
      CopiesAfter(c, first.Final(), rest, first.stats, p);
      if jobs[0].dir.Promote? {
        PromoteCons(c, w, first.Final(), jobs, p);
      } else {
        DemoteCons(c, w, first.Final(), jobs, p);
      }
    }
  }

  lemma PromotesFirst(c: Config, w: World, jobs: seq<Job>, p: Path)
    requires AddsFirst(jobs) && FirstMaker(c, w, jobs, p) < |jobs|
    ensures jobs[0].dir.Promote?
  {
    if jobs[0].dir.Demote? { NoMaker(c, w, jobs, p); }
  }

  lemma AddsFirstRest(jobs: seq<Job>)
    requires AddsFirst(jobs) && jobs != []
    ensures AddsFirst(jobs[1..])
  {
    assert forall i :: 0 <= i < |jobs[1..]| ==> jobs[1..][i] == jobs[i + 1];
  }

  /** A copy that was made had something to be made from. */
  lemma {:induction false} MadeFromOriginal(c: Config, w: World, jobs: seq<Job>, st: Stats, p: Path)
    requires DistinctJobs(jobs) && AddsFirst(jobs) && Run(c, w, jobs, st).stats.errors == st.errors
    requires p !in w.files && FirstMaker(c, w, jobs, p) < |jobs|
    ensures Original(c, w, jobs, p).Some?
    decreases |jobs|
  {
    var first, rest := Turn(c, w, jobs[0], st), jobs[1..];
    PromotesFirst(c, w, jobs, p);
    FirstTurn(c, w, jobs, st);
    CleanTurn(c, w, jobs[0], st);
    MadeHere(c, w, first.Final(), jobs[0], p);
    if !Makes(c, w, jobs[0], p) {
      NotAgain(jobs, jobs[0].sha);
      AddsFirstRest(jobs);
      OriginalCons(c, w, first.Final(), jobs, p);
      SameMaker(c, w, first.Final(), rest, p);
      MadeFromOriginal(c, first.Final(), rest, first.stats, p);
    }
  }

  // ---- what an error-free run leaves ---------------------------------------

  /** Where a manifest track's copy is, or is to be. */
  ghost function Dst(c: Config, w: World, s: Sha): Option<Path> {
    if s in OnDisk(w) then w.rows[s].copy else Derived(c, w.tracks, s)
  }

  /** The run's jobs and their result. */
  ghost predicate ErrorFree(c: Config, w: World, manifest: set<Sha>, jobs: seq<Job>, st: Stats, x: World) {
    && Plan(w, manifest, jobs)
    && Run(c, w, jobs, st).stats.errors == st.errors && x == Run(c, w, jobs, st).Final()
  }

  lemma JobOf(w: World, manifest: set<Sha>, jobs: seq<Job>, s: Sha) returns (i: nat)
    requires Plan(w, manifest, jobs) && s in ToAdd(w, manifest) + ToRemove(w, manifest)
    ensures i < |jobs| && jobs[i].sha == s && (jobs[i].dir.Promote? <==> s in manifest)
  {
    i :| 0 <= i < |jobs| && jobs[i].sha == s;
  }

  lemma NoJob(w: World, manifest: set<Sha>, jobs: seq<Job>, s: Sha)
    requires Plan(w, manifest, jobs) && s !in ToAdd(w, manifest) + ToRemove(w, manifest)
    ensures !Mentions(jobs, s)
  {
    forall i | 0 <= i < |jobs| ensures jobs[i].sha != s {}
  }

  lemma MakerOf(c: Config, w: World, manifest: set<Sha>, jobs: seq<Job>, s: Sha)
    requires Plan(w, manifest, jobs) && s in ToAdd(w, manifest) && Derived(c, w.tracks, s).Some?
    ensures FirstMaker(c, w, jobs, Derived(c, w.tracks, s).value) < |jobs|
  {
    var i := JobOf(w, manifest, jobs, s);
    assert Makes(c, w, jobs[i], Derived(c, w.tracks, s).value);
  }

  /** A manifest track is resident, with a copy unless a planned demotion has
      unlinked it. */
  lemma ManifestTrack(c: Config, w: World, manifest: set<Sha>, jobs: seq<Job>, st: Stats, x: World, s: Sha)
    requires ErrorFree(c, w, manifest, jobs, st, x) && s in manifest
    ensures Dst(c, w, s).Some? && RowOf(x, s) == Some(Row(true, Dst(c, w, s)))
    ensures Dst(c, w, s).value in x.files <==> !SomeUnlinks(w, jobs, Dst(c, w, s).value)
  {
    RowsAfter(c, w, jobs, st);
    if s in OnDisk(w) {
      NoJob(w, manifest, jobs, s);
    } else {
      var i := JobOf(w, manifest, jobs, s);
      MakerOf(c, w, manifest, jobs, s);
    }
    var p := Dst(c, w, s).value;
    CopiesAfter(c, w, jobs, st, p);
    if p !in w.files { MadeFromOriginal(c, w, jobs, st, p); }
  }

  /** A resident row outside the manifest whose copy was missing, at the path of
      a copy the run makes. */
  ghost predicate Revived(c: Config, w: World, manifest: set<Sha>, t: Sha) {
    && t in w.rows && t !in manifest && w.rows[t].resident && w.rows[t].copy.Some? && w.rows[t].copy.value !in w.files
    && exists s :: s in ToAdd(w, manifest) && Derived(c, w.tracks, s) == w.rows[t].copy
  }

  lemma MissingNotUnlinked(w: World, manifest: set<Sha>, jobs: seq<Job>, p: Path)
    requires Plan(w, manifest, jobs) && p !in w.files
    ensures !SomeUnlinks(w, jobs, p)
  {
    forall i | 0 <= i < |jobs| ensures !Unlinks(w, jobs[i], p) {}
  }

  lemma OtherTrack(c: Config, w: World, manifest: set<Sha>, jobs: seq<Job>, st: Stats, x: World, t: Sha)
    requires ErrorFree(c, w, manifest, jobs, st, x) && t !in manifest
    ensures t in OnDisk(x) <==> Revived(c, w, manifest, t)
  {
    RowsAfter(c, w, jobs, st);
    if t in OnDisk(w) {
      var i := JobOf(w, manifest, jobs, t);
    } else {
      NoJob(w, manifest, jobs, t);
      assert RowOf(x, t) == RowOf(w, t);
      if t in w.rows && w.rows[t].resident && w.rows[t].copy.Some? {
        RevivedCopy(c, w, manifest, jobs, st, x, w.rows[t].copy.value);
      }
    }
  }

  /** A missing copy is there afterwards exactly when it is derived for a track
      that was added. */
  lemma RevivedCopy(c: Config, w: World, manifest: set<Sha>, jobs: seq<Job>, st: Stats, x: World, p: Path)
    requires ErrorFree(c, w, manifest, jobs, st, x) && p !in w.files
    ensures p in x.files <==> exists s :: s in ToAdd(w, manifest) && Derived(c, w.tracks, s) == Some(p)
  {
    CopiesAfter(c, w, jobs, st, p);
    MissingNotUnlinked(w, manifest, jobs, p);
    var k := FirstMaker(c, w, jobs, p);
    if k < |jobs| {
      MadeFromOriginal(c, w, jobs, st, p);
      assert jobs[k].sha in ToAdd(w, manifest);
    }
    if s :| s in ToAdd(w, manifest) && Derived(c, w.tracks, s) == Some(p) { MakerOf(c, w, manifest, jobs, s); }
  }

  /** What a second run would plan after an error-free one: to add the manifest
      tracks whose copy a demotion unlinked, and to remove the revived rows. */
  lemma SecondPlan(c: Config, w: World, manifest: set<Sha>, jobs: seq<Job>, st: Stats, x: World)
    requires ErrorFree(c, w, manifest, jobs, st, x)
    ensures forall s :: s in ToAdd(x, manifest) <==>
              s in manifest && Dst(c, w, s).Some? && SomeUnlinks(w, jobs, Dst(c, w, s).value)
    ensures forall t :: t in ToRemove(x, manifest) <==> Revived(c, w, manifest, t)
  {
    forall s ensures s in ToAdd(x, manifest) <==>
        s in manifest && Dst(c, w, s).Some? && SomeUnlinks(w, jobs, Dst(c, w, s).value)
    {
      if s in manifest { ManifestTrack(c, w, manifest, jobs, st, x, s); }
    }
    forall t ensures t in ToRemove(x, manifest) <==> Revived(c, w, manifest, t) {
      if t !in manifest { OtherTrack(c, w, manifest, jobs, st, x, t); }
    }
  }

  /** So exactly the manifest is resident with a copy, and a second run plans
      nothing, if and only if no planned demotion unlinks a manifest track's
      copy and no row is revived. */
  lemma ErrorFreeCopies(c: Config, w: World, manifest: set<Sha>, jobs: seq<Job>, st: Stats, x: World)
    requires ErrorFree(c, w, manifest, jobs, st, x)
    ensures (ToAdd(x, manifest) == {} && ToRemove(x, manifest) == {}) <==> OnDisk(x) == manifest
    ensures OnDisk(x) == manifest <==>
            && (forall s :: s in manifest && Dst(c, w, s).Some? ==> !SomeUnlinks(w, jobs, Dst(c, w, s).value))
            && (forall t :: !Revived(c, w, manifest, t))
  {
    SecondPlan(c, w, manifest, jobs, st, x);
    SetEmpty(ToAdd(x, manifest));
    SetEmpty(ToRemove(x, manifest));
    if ToAdd(x, manifest) == {} && ToRemove(x, manifest) == {} { SameSets(OnDisk(x), manifest); }
  }

  lemma SetEmpty<T>(s: set<T>)
    ensures s == {} <==> forall x :: x !in s
  {
  }

  lemma SameSets<T>(a: set<T>, b: set<T>)
    requires a - b == {} && b - a == {}
    ensures a == b
  {
    forall x ensures x in a <==> x in b {
      assert x !in a - b && x !in b - a;
    }
  }

  /** The copy is the track's own if and only if no demotion unlinks it, and what
      lay there before was it, or nothing did and the first track added at that
      path has the same original. */
  lemma RightCopyExactly(c: Config, w: World, manifest: set<Sha>, jobs: seq<Job>, st: Stats, x: World, s: Sha)
    requires ErrorFree(c, w, manifest, jobs, st, x) && s in manifest
    requires s in w.tracks && w.tracks[s] in w.files
    ensures Dst(c, w, s).Some?
    ensures var p, own := Dst(c, w, s).value, w.files[w.tracks[s]];
            Look(x, Some(p)) == Some(Encoded(own)) <==>
            && !SomeUnlinks(w, jobs, p)
            && (if p in w.files then w.files[p] == Encoded(own) else Original(c, w, jobs, p) == Some(own))
  {
    ManifestTrack(c, w, manifest, jobs, st, x, s);
    CopiesAfter(c, w, jobs, st, Dst(c, w, s).value);
  }

  // ---- tracks that share no path -------------------------------------------

  /** No two tracks would share a copy. */
  ghost predicate Apart(c: Config, w: World) {
    forall s, t :: s in w.tracks && t in w.tracks && s != t && Derived(c, w.tracks, s).Some?
      ==> Derived(c, w.tracks, s) != Derived(c, w.tracks, t)
  }

  /** Every row belongs to a track, and names the path derived for it: the state
      relocate_transcodes brings about. */
  ghost predicate Placed(c: Config, w: World) {
    forall s :: s in w.rows ==>
      s in w.tracks && (w.rows[s].copy.Some? ==> w.rows[s].copy == Derived(c, w.tracks, s))
  }

  lemma ApartKeepsOwn(c: Config, w: World, manifest: set<Sha>, jobs: seq<Job>, s: Sha)
    requires Apart(c, w) && Placed(c, w) && Plan(w, manifest, jobs)
    requires s in manifest && s in w.tracks && Dst(c, w, s).Some?
    ensures Dst(c, w, s) == Derived(c, w.tracks, s) && !SomeUnlinks(w, jobs, Dst(c, w, s).value)
  {
    forall i | 0 <= i < |jobs| ensures !Unlinks(w, jobs[i], Dst(c, w, s).value) {
      if jobs[i].dir.Demote? { assert jobs[i].sha in w.tracks && jobs[i].sha != s; }
    }
  }

  /** For them the run always leaves exactly the manifest. */
  lemma ApartCopies(c: Config, w: World, manifest: set<Sha>, jobs: seq<Job>, st: Stats, x: World)
    requires Apart(c, w) && Placed(c, w) && ErrorFree(c, w, manifest, jobs, st, x)
    ensures OnDisk(x) == manifest && ToAdd(x, manifest) == {} && ToRemove(x, manifest) == {}
  {
    RowsAfter(c, w, jobs, st);
    forall s | s in manifest && Dst(c, w, s).Some? ensures !SomeUnlinks(w, jobs, Dst(c, w, s).value) {
      if s in ToAdd(w, manifest) { var i := JobOf(w, manifest, jobs, s); }
      ApartKeepsOwn(c, w, manifest, jobs, s);
    }
    forall t ensures !Revived(c, w, manifest, t) {
      if t in w.rows && t !in manifest {
        forall s | s in ToAdd(w, manifest) && Derived(c, w.tracks, s).Some?
          ensures Derived(c, w.tracks, s) != w.rows[t].copy
        {
        }
      }
    }
    ErrorFreeCopies(c, w, manifest, jobs, st, x);
  }

  /** And each track its own copy exactly when nothing else lay at its path. */
  lemma ApartRightCopy(c: Config, w: World, manifest: set<Sha>, jobs: seq<Job>, st: Stats, x: World, s: Sha)
    requires Apart(c, w) && Placed(c, w) && ErrorFree(c, w, manifest, jobs, st, x) && s in manifest
    requires s in w.tracks && w.tracks[s] in w.files && Derived(c, w.tracks, s).Some?
    ensures var dst, own := Derived(c, w.tracks, s).value, w.files[w.tracks[s]];
            Look(x, Some(dst)) == Some(Encoded(own)) <==> dst !in w.files || w.files[dst] == Encoded(own)
  {
    RightCopyExactly(c, w, manifest, jobs, st, x, s);
    ApartKeepsOwn(c, w, manifest, jobs, s);
    var dst := Derived(c, w.tracks, s).value;
    if dst !in w.files {
      MakerOf(c, w, manifest, jobs, s);
      MadeFromOriginal(c, w, jobs, st, dst);
      var k := FirstMaker(c, w, jobs, dst);
      assert jobs[k].sha in w.tracks && Derived(c, w.tracks, jobs[k].sha) == Some(dst);
    }
  }

  // ---- how a copy goes wrong -----------------------------------------------

  const NO_FAULTS := Faults(false, false, false, false, false, false, false)

  lemma CrashWhileEncoding(c: Config, w: World, s: Sha, f: Faults, st: Stats)
    requires HasCodec(c.format) && Derived(c, w.tracks, s).Some? && !f.mkdir && !f.encode
    requires w.tracks[s] in w.files && Derived(c, w.tracks, s).value !in w.files
    ensures SetFile(w, Derived(c, w.tracks, s).value, Torn) in Turn(c, w, Job(s, Promote, f), st).trace
  {
    var dst := Derived(c, w.tracks, s).value;
    var o := Encode(c, w, w.tracks[s], dst, f, st);
    assert o.trace[1] == SetFile(w, dst, Torn);
    assert PromoteCopy(c, w, s, dst, f, st).trace[1] == o.trace[1];
  }

  /** A crash while a track is being encoded leaves a copy that every later
      error-free run takes for finished, unless it unlinks it. */
  lemma TornCopyStays(c: Config, w: World, manifest: set<Sha>, s: Sha, f: Faults, jobs: seq<Job>, st: Stats, x: World)
    requires HasCodec(c.format) && !f.mkdir && !f.encode && s in ToAdd(w, manifest)
    requires Derived(c, w.tracks, s).Some? && w.tracks[s] in w.files && Derived(c, w.tracks, s).value !in w.files
    requires ErrorFree(c, SetFile(w, Derived(c, w.tracks, s).value, Torn), manifest, jobs, st, x)
    ensures var dst := Derived(c, w.tracks, s).value;
            var torn := SetFile(w, dst, Torn);
            && torn in Turn(c, w, Job(s, Promote, f), st).trace
            && RowOf(x, s) == Some(Row(true, Some(dst)))
            && Look(x, Some(dst)) == if SomeUnlinks(torn, jobs, dst) then None else Some(Torn)
  {
    var dst := Derived(c, w.tracks, s).value;
    var torn := SetFile(w, dst, Torn);
    CrashWhileEncoding(c, w, s, f, st);
    ManifestTrack(c, torn, manifest, jobs, st, x, s);
    assert s in OnDisk(torn) ==> torn.rows[s].copy == Some(dst);
    CopiesAfter(c, torn, jobs, st, dst);
  }

  /** A copy that a demoted track shares is adopted and then unlinked, with no
      error: the track is recorded resident and has none. */
  lemma AdoptedThenUnlinked(c: Config, w: World, manifest: set<Sha>, jobs: seq<Job>, st: Stats, x: World, s: Sha,
                            t: Sha)
    requires ErrorFree(c, w, manifest, jobs, st, x) && s in ToAdd(w, manifest) && t in ToRemove(w, manifest)
    requires Derived(c, w.tracks, s) == w.rows[t].copy
    requires forall i :: 0 <= i < |jobs| ==> !jobs[i].faults.unlink
    ensures RowOf(x, s) == Some(Row(true, Derived(c, w.tracks, s))) && Derived(c, w.tracks, s).value !in x.files
  {
    ManifestTrack(c, w, manifest, jobs, st, x, s);
    var i := JobOf(w, manifest, jobs, t);
    assert Unlinks(w, jobs[i], Derived(c, w.tracks, s).value);
  }

  lemma FaultlessPromote(c: Config, w: World, s: Sha, st: Stats)
    requires Derived(c, w.tracks, s).Some?
    requires Derived(c, w.tracks, s).value in w.files || (HasCodec(c.format) && w.tracks[s] in w.files)
    ensures var o := Turn(c, w, Job(s, Promote, NO_FAULTS), st);
            o.stats.errors == st.errors && Promoted(w, o.Final(), s, Derived(c, w.tracks, s).value)
  {
    assert PromoteOne(c, w, s, NO_FAULTS, st).stats.errors == st.errors;
    CleanPromote(c, w, s, NO_FAULTS, st);
  }

  /** Of two tracks that differ in nothing but the extension, the second is
      resident with the first one's audio. */
  lemma SecondGetsTheFirst(c: Config, w: World, s: Sha, t: Sha, st: Stats)
    requires HasCodec(c.format) && s in w.tracks && t in w.tracks && s != t
    requires Derived(c, w.tracks, s).Some? && Derived(c, w.tracks, t).Some? && Stem(w.tracks[s]) == Stem(w.tracks[t])
    requires w.tracks[s] in w.files && Derived(c, w.tracks, s).value !in w.files
    ensures var dst := Derived(c, w.tracks, s).value;
            var o := Run(c, w, [Job(s, Promote, NO_FAULTS), Job(t, Promote, NO_FAULTS)], st);
            && o.stats.errors == st.errors
            && t in o.Final().rows && o.Final().rows[t] == Row(true, Some(dst))
            && dst in o.Final().files && o.Final().files[dst] == Encoded(w.files[w.tracks[s]])
  {
    SharedExactly(c, w.tracks, s, t);
    var a, b := Job(s, Promote, NO_FAULTS), Job(t, Promote, NO_FAULTS);
    RunTwo(c, w, a, b, st);
    FaultlessPromote(c, w, s, st);
    var first := Turn(c, w, a, st);
    FaultlessPromote(c, first.Final(), t, first.stats);
  }

  lemma RunTwo(c: Config, w: World, a: Job, b: Job, st: Stats)
    ensures var first := Turn(c, w, a, st);
            var second := Turn(c, first.Final(), b, first.stats);
            Run(c, w, [a, b], st).Final() == second.Final() && Run(c, w, [a, b], st).stats == second.stats
  {
    var first := Turn(c, w, a, st);
    var second := Turn(c, first.Final(), b, first.stats);
    assert [a, b][1..] == [b] && [b][1..] == [];
    assert Run(c, second.Final(), [], second.stats) == Outcome([second.Final()], 0, second.stats);
    assert Run(c, first.Final(), [b], first.stats).Final() == second.Final();
  }
}
