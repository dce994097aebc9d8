/** What the counters of a rotation count. */
module RotateCount {
  import opened Paths
  import opened Jobs
  import opened Rotate

  lemma RunOne(root: string, w: World, job: Job, st: Stats)
    ensures [] + [job] == [job]
    ensures var o, turn := Run(root, w, [job], st), Turn(root, w, job, st);
            o.Final() == turn.Final() && o.stats == turn.stats && forall x :: x in turn.trace ==> x in o.trace
  {
    var turn := Turn(root, w, job, st);
    assert [job][1..] == [];
    assert Run(root, turn.Final(), [], turn.stats) == Outcome([turn.Final()], 0, turn.stats);
  }

  /** Running on with one more job. */
  lemma {:induction false} RunSnoc(root: string, w: World, jobs: seq<Job>, job: Job, st: Stats)
    ensures var front, longer := Run(root, w, jobs, st), Run(root, w, jobs + [job], st);
            var turn := Turn(root, front.Final(), job, front.stats);
            longer.Final() == turn.Final() && longer.stats == turn.stats
    decreases |jobs|
  {
    if jobs == [] {
      RunOne(root, w, job, st);
    } else {
      assert (jobs + [job])[1..] == jobs[1..] + [job];
      var mid, u := FirstTurn(root, w, jobs, st);
      var mid', u' := FirstTurn(root, w, jobs + [job], st);
      RunSnoc(root, mid, jobs[1..], job, u);
    }
  }

  // ---- one turn ------------------------------------------------------------

  /** The row lies on the source side and the name on the other side is free. */
  predicate Free(root: string, w: World, job: Job) {
    job.sha in w.tracks
    && var dst := Swap(root, w.tracks[job.sha], job.dir); dst.Some? && dst.value !in w.names
  }

  /** How far the counters have come from st to u over some number of turns:
      promotions and demotions completed, and of error-free turns also the
      copies and the moves found done. */
  ghost predicate Counted(st: Stats, u: Stats, promoted: nat, demoted: nat, copied: nat, found: nat) {
    && u.toAdd == st.toAdd && u.toRemove == st.toRemove && u.respawned == st.respawned
    && u.added == st.added + promoted && u.removed == st.removed + demoted
    && u.errors >= st.errors
    && (u.errors == st.errors ==>
          u.fallbackCopies == st.fallbackCopies + copied && u.alreadyApplied == st.alreadyApplied + found)
  }

  lemma TurnCounts(root: string, w: World, job: Job, st: Stats)
    ensures var u := Turn(root, w, job, st).stats;
            var done := u.errors == st.errors && Free(root, w, job);
            Counted(st, u, if done && job.dir.Promote? then 1 else 0, if done && job.dir.Demote? then 1 else 0,
                    if done && job.faults.link.CrossDevice? then 1 else 0, if done then 0 else 1)
  {
    var Job(sha, d, f) := job;
    if sha in w.tracks && Swap(root, w.tracks[sha], d).Some? {
      FileCounts(w, sha, w.tracks[sha], Swap(root, w.tracks[sha], d).value, d, f, st);
    }
  }

  lemma FileCounts(w: World, sha: Sha, cur: Path, dst: Path, d: Direction, f: Faults, st: Stats)
    ensures var o := MoveFile(w, sha, cur, dst, d, f, st);
            && Counted(st, o.stats, 0, 0, if dst !in w.names && f.link.CrossDevice? then 1 else 0,
                       if dst in w.names then 1 else 0)
            && (o.stats.errors == st.errors ==> o.rc == if dst in w.names then 1 else 0)
  {
  }

  // ---- which moves fail ----------------------------------------------------

  /** The file at cur can be brought to dst, which is free, the same file, or
      on another filesystem and can be copied to. */
  predicate CanArrive(w: World, cur: Path, dst: Path, f: Faults) {
    && !f.mkdir && !f.link.OtherLinkError? && cur in w.names && !f.unlink
    && (if dst in w.names then w.names[dst].ino == w.names[cur].ino
        else f.link.CrossDevice? ==> f.copy.NoCopyFault?)
  }

  lemma FileFailsExactly(w: World, sha: Sha, cur: Path, dst: Path, d: Direction, f: Faults, st: Stats)
    ensures MoveFile(w, sha, cur, dst, d, f, st).stats.errors == st.errors <==>
            CanArrive(w, cur, dst, f) && !f.updatePath && !f.upsert && !PathTaken(w.tracks, sha, dst)
  {
  }

  /** A move counts no error exactly when its row can be found and its path
      lies under the library and no call it makes fails. */
  lemma MoveFailsExactly(root: string, w: World, job: Job, st: Stats)
    ensures MoveOne(root, w, job, st).stats.errors == st.errors <==>
            && job.sha in w.tracks && !job.faults.upsert
            && var cur := w.tracks[job.sha]; var dst := Swap(root, cur, job.dir);
               if dst.None? then Swap(root, cur, Reverse(job.dir)).Some?
               else CanArrive(w, cur, dst.value, job.faults) && !job.faults.updatePath
                    && !PathTaken(w.tracks, job.sha, dst.value)
  {
    var Job(sha, d, f) := job;
    if sha in w.tracks && Swap(root, w.tracks[sha], d).Some? {
      FileFailsExactly(w, sha, w.tracks[sha], Swap(root, w.tracks[sha], d).value, d, f, st);
    }
  }

  /** A copy is begun, and either it is not finished and cannot be cleared away,
      or it is and the original cannot be deleted. */
  predicate LeavesCopy(w: World, cur: Path, dst: Path, f: Faults) {
    && !f.mkdir && f.link.CrossDevice? && cur in w.names && dst !in w.names
    && ((f.copy.CopyAborted? && f.cleanup) || (f.copy.NoCopyFault? && f.unlink))
  }

  /** A move that gives up leaves the rows and every name as they were, and a
      copy at the new name exactly in those two cases. */
  lemma GivenUp(w: World, sha: Sha, cur: Path, dst: Path, d: Direction, f: Faults, st: Stats)
    requires MoveFile(w, sha, cur, dst, d, f, st).rc == -1
    ensures var x := MoveFile(w, sha, cur, dst, d, f, st).Final();
            && x.tracks == w.tracks && x.residency == w.residency
            && x.names == if !LeavesCopy(w, cur, dst, f) then w.names
                          else w.names[dst := File(w.nextIno, if f.copy.CopyAborted? then Partial
                                                              else w.names[cur].data)]
  {
    if LinkCall(w, cur, dst, f.link).OtherDevice? {
      var w1 := CreateEmpty(w, dst);
      assert Unlink(w1, dst).names == w.names;
    }
  }

  // ---- a run ---------------------------------------------------------------

  /** The world job i finds. */
  function WorldAt(root: string, w: World, jobs: seq<Job>, st: Stats, i: nat): World
    requires i <= |jobs|
  {
    Run(root, w, jobs[..i], st).Final()
  }

  /** No error is counted while job i is carried out. */
  predicate NoError(root: string, w: World, jobs: seq<Job>, st: Stats, i: nat)
    requires i < |jobs|
  {
    Run(root, w, jobs[..i + 1], st).stats.errors == Run(root, w, jobs[..i], st).stats.errors
  }

  /** Job i moved the file of its track to a free name, without an error. */
  predicate Completes(root: string, w: World, jobs: seq<Job>, st: Stats, i: nat)
    requires i < |jobs|
  {
    NoError(root, w, jobs, st, i) && Free(root, WorldAt(root, w, jobs, st, i), jobs[i])
  }

  function Done(root: string, w: World, jobs: seq<Job>, st: Stats): nat -> bool {
    (i: nat) => i < |jobs| && Completes(root, w, jobs, st, i)
  }

  /** The jobs in direction d that did. */
  function Completed(root: string, w: World, jobs: seq<Job>, st: Stats, d: Direction): set<nat> {
    Chosen(jobs, Done(root, w, jobs, st), (job: Job, done: bool) => done && job.dir == d)
  }

  /** Those that copied across devices. */
  function Copied(root: string, w: World, jobs: seq<Job>, st: Stats): set<nat> {
    Chosen(jobs, Done(root, w, jobs, st), (job: Job, done: bool) => done && job.faults.link.CrossDevice?)
  }

  /** Those that did not. */
  function Found(root: string, w: World, jobs: seq<Job>, st: Stats): set<nat> {
    Chosen(jobs, Done(root, w, jobs, st), (job: Job, done: bool) => !done)
  }

  lemma DoneFront(root: string, w: World, jobs: seq<Job>, st: Stats, n: nat)
    requires n <= |jobs|
    ensures forall i :: 0 <= i < n ==> Done(root, w, jobs[..n], st)(i) == Done(root, w, jobs, st)(i)
  {
    forall i | 0 <= i < n ensures Done(root, w, jobs[..n], st)(i) == Done(root, w, jobs, st)(i) {
      assert jobs[..n][..i] == jobs[..i] && jobs[..n][..i + 1] == jobs[..i + 1];
    }
  }

  lemma FrontSets(root: string, w: World, jobs: seq<Job>, st: Stats)
    requires jobs != []
    ensures var n := |jobs| - 1;
            var done := Done(root, w, jobs, st)(n);
            && (forall d :: |Completed(root, w, jobs, st, d)| ==
                            |Completed(root, w, jobs[..n], st, d)| + if done && jobs[n].dir == d then 1 else 0)
            && |Copied(root, w, jobs, st)| ==
               |Copied(root, w, jobs[..n], st)| + (if done && jobs[n].faults.link.CrossDevice? then 1 else 0)
            && |Found(root, w, jobs, st)| == |Found(root, w, jobs[..n], st)| + (if done then 0 else 1)
  {
    var n := |jobs| - 1;
    var all, front := Done(root, w, jobs, st), Done(root, w, jobs[..n], st);
    DoneFront(root, w, jobs, st, n);
    forall d
      ensures |Completed(root, w, jobs, st, d)| ==
              |Completed(root, w, jobs[..n], st, d)| + if all(n) && jobs[n].dir == d then 1 else 0
    {
      ChosenNext(jobs, all, front, (job: Job, done: bool) => done && job.dir == d);
    }
    ChosenNext(jobs, all, front, (job: Job, done: bool) => done && job.faults.link.CrossDevice?);
    ChosenNext(jobs, all, front, (job: Job, done: bool) => !done);
  }

  /** In every run, whatever fails, added and removed count the promotions and
      the demotions that were completed without an error. When no error is
      counted at all, fallback_copies counts those of them that copied, and
      already_applied the jobs that completed nothing. */
  lemma {:induction false} RunCounts(root: string, w: World, jobs: seq<Job>, st: Stats)
    ensures Counted(st, Run(root, w, jobs, st).stats,
                    |Completed(root, w, jobs, st, Promote)|, |Completed(root, w, jobs, st, Demote)|,
                    |Copied(root, w, jobs, st)|, |Found(root, w, jobs, st)|)
    decreases |jobs|
  {
    if jobs == [] {
      assert Completed(root, w, jobs, st, Promote) == Completed(root, w, jobs, st, Demote) == {};
      assert Copied(root, w, jobs, st) == Found(root, w, jobs, st) == {};
    } else {
      var n := |jobs| - 1;
      RunCounts(root, w, jobs[..n], st);
      FrontSets(root, w, jobs, st);
      LastTurnCounts(root, w, jobs, st);
    }
  }

  lemma LastTurnCounts(root: string, w: World, jobs: seq<Job>, st: Stats)
    requires jobs != []
    ensures var n := |jobs| - 1;
            var done := Done(root, w, jobs, st)(n);
            Counted(Run(root, w, jobs[..n], st).stats, Run(root, w, jobs, st).stats,
                    if done && jobs[n].dir.Promote? then 1 else 0, if done && jobs[n].dir.Demote? then 1 else 0,
                    if done && jobs[n].faults.link.CrossDevice? then 1 else 0, if done then 0 else 1)
  {
    var n := |jobs| - 1;
    assert jobs[..n] + [jobs[n]] == jobs == jobs[..n + 1];
    RunSnoc(root, w, jobs[..n], jobs[n], st);
    TurnCounts(root, WorldAt(root, w, jobs, st, n), jobs[n], Run(root, w, jobs[..n], st).stats);
  }

  lemma {:induction false} Split(root: string, w: World, jobs: seq<Job>, st: Stats)
    ensures |Completed(root, w, jobs, st, Promote)| + |Completed(root, w, jobs, st, Demote)|
            + |Found(root, w, jobs, st)| == |jobs|
    decreases |jobs|
  {
    if jobs == [] {
      assert Completed(root, w, jobs, st, Promote) == Completed(root, w, jobs, st, Demote) == {};
      assert Found(root, w, jobs, st) == {};
    } else {
      Split(root, w, jobs[..|jobs| - 1], st);
      FrontSets(root, w, jobs, st);
    }
  }

  /** The promotions for which no error was counted. */
  function Unfailed(root: string, w: World, jobs: seq<Job>, st: Stats, d: Direction): set<nat> {
    set i: nat | i < |jobs| && jobs[i].dir == d && NoError(root, w, jobs, st, i)
  }

  lemma SubsetSize(a: set<nat>, b: set<nat>)
    requires a <= b
    ensures |a| <= |b|
  {
    assert b == a + (b - a) && a !! b - a;
  }

  /** So no counter counts a job that failed, and after a run without errors
      the three add up to the jobs. */
  lemma CountersAddUp(root: string, w: World, jobs: seq<Job>, st: Stats)
    ensures var u := Run(root, w, jobs, st).stats;
            && u.added - st.added <= |Unfailed(root, w, jobs, st, Promote)|
            && u.removed - st.removed <= |Unfailed(root, w, jobs, st, Demote)|
            && (u.errors == st.errors ==>
                  (u.added - st.added) + (u.removed - st.removed) + (u.alreadyApplied - st.alreadyApplied) == |jobs|)
  {
    RunCounts(root, w, jobs, st);
    Split(root, w, jobs, st);
    SubsetSize(Completed(root, w, jobs, st, Promote), Unfailed(root, w, jobs, st, Promote));
    SubsetSize(Completed(root, w, jobs, st, Demote), Unfailed(root, w, jobs, st, Demote));
  }
}
