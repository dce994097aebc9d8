/** What the counters of a rotation in transcode mode count. */
module TranscodeCount {
  import opened Prelude
  import opened Paths
  import opened Jobs
  import opened Transcode

  /** Running on with one more job. */
  lemma {:induction false} RunSnoc(c: Config, w: World, jobs: seq<Job>, job: Job, st: Stats)
    ensures var front, longer := Run(c, w, jobs, st), Run(c, w, jobs + [job], st);
            var turn := Turn(c, front.Final(), job, front.stats);
            longer.Final() == turn.Final() && longer.stats == turn.stats
    decreases |jobs|
  {
    if jobs == [] {
      assert [job][1..] == [] && [] + [job] == [job];
    } else {
      assert (jobs + [job])[1..] == jobs[1..] + [job];
      var first := Turn(c, w, jobs[0], st);
      RunSnoc(c, first.Final(), jobs[1..], job, first.stats);
    }
  }

  /** A demotion, or a promotion to a path where nothing lies. */
  predicate Fresh(c: Config, w: World, job: Job) {
    job.dir.Demote? ||
    (var dst := Derived(c, w.tracks, job.sha); dst.Some? && dst.value !in w.files)
  }

  /** How far the counters have come: promotions and demotions completed, and
      of error-free turns also the copies found there. */
  ghost predicate Counted(st: Stats, u: Stats, promoted: nat, demoted: nat, found: nat) {
    && u.added == st.added + promoted && u.removed == st.removed + demoted && u.errors >= st.errors
    && (u.errors == st.errors ==> u.alreadyApplied == st.alreadyApplied + found)
  }

  lemma TurnCounts(c: Config, w: World, job: Job, st: Stats)
    ensures var u := Turn(c, w, job, st).stats;
            var done := u.errors == st.errors && Fresh(c, w, job);
            Counted(st, u, if done && job.dir.Promote? then 1 else 0, if done && job.dir.Demote? then 1 else 0,
                    if done then 0 else 1)
  {
    if job.dir.Promote? {
      var dst := Derived(c, w.tracks, job.sha);
      if dst.Some? { CopyCounts(c, w, job.sha, dst.value, job.faults, st); }
    }
  }

  lemma CopyCounts(c: Config, w: World, sha: Sha, dst: Path, f: Faults, st: Stats)
    requires sha in w.tracks
    ensures var o := PromoteCopy(c, w, sha, dst, f, st);
            && o.stats.added == st.added && o.stats.removed == st.removed
            && (o.stats.errors == st.errors ==>
                  o.rc == (if dst in w.files then 1 else 0) && o.stats.alreadyApplied == st.alreadyApplied + o.rc)
  {
    EncodeCounts(c, w, w.tracks[sha], dst, f, st);
  }

  lemma EncodeCounts(c: Config, w: World, src: Path, dst: Path, f: Faults, st: Stats)
    ensures var o := Encode(c, w, src, dst, f, st);
            if o.rc == 0 then o.stats == st else o.stats == st.(errors := st.errors + 1)
  {}

  // ---- which promotions fail -----------------------------------------------

  /** Nothing lies at dst and the encoder can be started. */
  predicate Starts(c: Config, w: World, sha: Sha, dst: Path, f: Faults)
    requires sha in w.tracks
  {
    dst !in w.files && !f.mkdir && (c.format == "opus" || c.format == "aac") && w.tracks[sha] in w.files
  }

  /** What a promotion leaves at a path where nothing lay. */
  function Output(w: World, src: Path, f: Faults): Option<Data>
    requires src in w.files
  {
    if !f.encode then Some(Encoded(w.files[src])) else if f.begun && f.cleanup then Some(Torn) else None
  }

  lemma EncodeEnds(c: Config, w: World, sha: Sha, dst: Path, f: Faults, st: Stats)
    requires sha in w.tracks && dst !in w.files && !f.mkdir
    ensures var o := Encode(c, w, w.tracks[sha], dst, f, st);
            && (o.rc == 0 <==> Starts(c, w, sha, dst, f) && !f.encode && !f.stat)
            && (o.rc == 0 ==> o.stats == st) && (o.rc != 0 ==> o.stats == st.(errors := st.errors + 1))
            && o.Final().rows == w.rows
            && o.Final().files ==
               if !Starts(c, w, sha, dst, f) || Output(w, w.tracks[sha], f).None? then w.files
               else w.files[dst := Output(w, w.tracks[sha], f).value]
  {}

  lemma CopyFailsExactly(c: Config, w: World, sha: Sha, dst: Path, f: Faults, st: Stats)
    requires sha in w.tracks
    ensures var o := PromoteCopy(c, w, sha, dst, f, st);
            && (o.stats.errors == st.errors <==>
                  !f.upsert && (dst in w.files || (Starts(c, w, sha, dst, f) && !f.encode && !f.stat)))
            && o.Final().rows == (if o.stats.errors == st.errors then w.rows[sha := Row(true, Some(dst))] else w.rows)
            && o.Final().files ==
               if !Starts(c, w, sha, dst, f) || Output(w, w.tracks[sha], f).None? then w.files
               else w.files[dst := Output(w, w.tracks[sha], f).value]
  {
    if dst !in w.files && !f.mkdir { EncodeEnds(c, w, sha, dst, f, st); }
  }

  /** A promotion counts no error exactly when its track has a derived path,
      something lies there already or the encoder can be started and finishes,
      and the row can be written. One that does leaves the rows as they were,
      and at that path at most what the encoder made. */
  lemma PromotionFailsExactly(c: Config, w: World, sha: Sha, f: Faults, st: Stats)
    ensures var o, dst := PromoteOne(c, w, sha, f, st), Derived(c, w.tracks, sha);
            if dst.None? then o.stats.errors == st.errors + 1 && o.Final() == w
            else
              && (o.stats.errors == st.errors <==>
                    !f.upsert && (dst.value in w.files || (Starts(c, w, sha, dst.value, f) && !f.encode && !f.stat)))
              && o.Final().rows == (if o.stats.errors == st.errors then w.rows[sha := Row(true, dst)] else w.rows)
              && o.Final().files ==
                 if !Starts(c, w, sha, dst.value, f) || Output(w, w.tracks[sha], f).None? then w.files
                 else w.files[dst.value := Output(w, w.tracks[sha], f).value]
  {
    var dst := Derived(c, w.tracks, sha);
    if dst.Some? { CopyFailsExactly(c, w, sha, dst.value, f, st); }
  }

  /** A demotion counts an error exactly when its row cannot be written, and
      its copy is gone either way, unless it cannot be deleted. */
  lemma DemotionFailsExactly(w: World, sha: Sha, f: Faults, st: Stats)
    ensures var o := DemoteOne(w, sha, f, st);
            && o.stats.errors == st.errors + (if f.upsert then 1 else 0)
            && o.Final().rows == (if f.upsert then w.rows else w.rows[sha := Row(false, None)])
            && forall p :: p in o.Final().files <==>
                 p in w.files && !(sha in w.rows && w.rows[sha].copy == Some(p) && !f.unlink)
  {
    var o, w1 := DemoteOne(w, sha, f, st), DropCopy(w, sha, f);
    assert o.Final().files == w1.files;
  }

  // ---- a run ---------------------------------------------------------------

  /** The world job i finds. */
  function WorldAt(c: Config, w: World, jobs: seq<Job>, st: Stats, i: nat): World
    requires i <= |jobs|
  {
    Run(c, w, jobs[..i], st).Final()
  }

  /** Job i did what it was for, without an error. */
  predicate Completes(c: Config, w: World, jobs: seq<Job>, st: Stats, i: nat)
    requires i < |jobs|
  {
    && Run(c, w, jobs[..i + 1], st).stats.errors == Run(c, w, jobs[..i], st).stats.errors
    && Fresh(c, WorldAt(c, w, jobs, st, i), jobs[i])
  }

  function Done(c: Config, w: World, jobs: seq<Job>, st: Stats): nat -> bool {
    (i: nat) => i < |jobs| && Completes(c, w, jobs, st, i)
  }

  function Completed(c: Config, w: World, jobs: seq<Job>, st: Stats, d: Direction): set<nat> {
    Chosen(jobs, Done(c, w, jobs, st), (job: Job, done: bool) => done && job.dir == d)
  }

  function Found(c: Config, w: World, jobs: seq<Job>, st: Stats): set<nat> {
    Chosen(jobs, Done(c, w, jobs, st), (job: Job, done: bool) => !done)
  }

  lemma DoneFront(c: Config, w: World, jobs: seq<Job>, st: Stats, n: nat)
    requires n <= |jobs|
    ensures forall i :: 0 <= i < n ==> Done(c, w, jobs[..n], st)(i) == Done(c, w, jobs, st)(i)
  {
    forall i | 0 <= i < n ensures Done(c, w, jobs[..n], st)(i) == Done(c, w, jobs, st)(i) {
      assert jobs[..n][..i] == jobs[..i] && jobs[..n][..i + 1] == jobs[..i + 1];
    }
  }

  lemma FrontSets(c: Config, w: World, jobs: seq<Job>, st: Stats)
    requires jobs != []
    ensures var n := |jobs| - 1;
            var done := Done(c, w, jobs, st)(n);
            && (forall d :: |Completed(c, w, jobs, st, d)| ==
                            |Completed(c, w, jobs[..n], st, d)| + if done && jobs[n].dir == d then 1 else 0)
            && |Found(c, w, jobs, st)| == |Found(c, w, jobs[..n], st)| + (if done then 0 else 1)
  {
    var n := |jobs| - 1;
    var all, front := Done(c, w, jobs, st), Done(c, w, jobs[..n], st);
    DoneFront(c, w, jobs, st, n);
    forall d
      ensures |Completed(c, w, jobs, st, d)| ==
              |Completed(c, w, jobs[..n], st, d)| + if all(n) && jobs[n].dir == d then 1 else 0
    {
      ChosenNext(jobs, all, front, (job: Job, done: bool) => done && job.dir == d);
    }
    ChosenNext(jobs, all, front, (job: Job, done: bool) => !done);
  }

  /** In every run, whatever fails, added counts the promotions that made a
      copy and removed the demotions, where no error was counted; after a run
      without errors already_applied counts the other jobs. */
  lemma {:induction false} RunCounts(c: Config, w: World, jobs: seq<Job>, st: Stats)
    ensures Counted(st, Run(c, w, jobs, st).stats, |Completed(c, w, jobs, st, Promote)|,
                    |Completed(c, w, jobs, st, Demote)|, |Found(c, w, jobs, st)|)
    ensures |Completed(c, w, jobs, st, Promote)| + |Completed(c, w, jobs, st, Demote)| + |Found(c, w, jobs, st)|
            == |jobs|
    decreases |jobs|
  {
    if jobs == [] {
      assert Completed(c, w, jobs, st, Promote) == Completed(c, w, jobs, st, Demote) == Found(c, w, jobs, st) == {};
    } else {
      var n := |jobs| - 1;
      RunCounts(c, w, jobs[..n], st);
      FrontSets(c, w, jobs, st);
      LastTurnCounts(c, w, jobs, st);
    }
  }

  lemma LastTurnCounts(c: Config, w: World, jobs: seq<Job>, st: Stats)
    requires jobs != []
    ensures var n := |jobs| - 1;
            var done := Done(c, w, jobs, st)(n);
            Counted(Run(c, w, jobs[..n], st).stats, Run(c, w, jobs, st).stats,
                    if done && jobs[n].dir.Promote? then 1 else 0, if done && jobs[n].dir.Demote? then 1 else 0,
                    if done then 0 else 1)
  {
    var n := |jobs| - 1;
    assert jobs[..n + 1] == jobs;
    assert jobs[..n] + [jobs[n]] == jobs;
    LastTurn(c, w, jobs, jobs[..n], jobs[n], st, Run(c, w, jobs, st).stats);
  }

  /** s is what the counters hold after the jobs of front and one more. */
  lemma LastTurn(c: Config, w: World, jobs: seq<Job>, front: seq<Job>, job: Job, st: Stats, s: Stats)
    requires jobs == front + [job] && s == Run(c, w, jobs, st).stats
    ensures var x, u := Run(c, w, front, st).Final(), Run(c, w, front, st).stats;
            var done := s.errors == u.errors && Fresh(c, x, job);
            Counted(u, s, if done && job.dir.Promote? then 1 else 0, if done && job.dir.Demote? then 1 else 0,
                    if done then 0 else 1)
  {
    RunSnoc(c, w, front, job, st);
    TurnCounts(c, Run(c, w, front, st).Final(), job, Run(c, w, front, st).stats);
  }
}
