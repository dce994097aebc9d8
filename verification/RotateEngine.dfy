/** rotate.c as it runs: an object that changes the disk and the tables one
    write at a time, proved against the functions of Rotate. */
module RotateEngine {
  import opened Paths
  import opened Jobs
  import opened Text
  import opened Rotate
  import opened RotatePlan
  import opened RotateCount

  /** The entries the filter keeps, in order. */
  function KeepPresent(w: World, s: seq<Sha>): (r: seq<Sha>)
    ensures |r| <= |s|
  {
    if s == [] then [] else
    var last := s[|s| - 1];
    KeepPresent(w, s[..|s| - 1]) + if Present(w, last) then [last] else []
  }

  lemma {:induction false} KeepPresentFilters(w: World, s: seq<Sha>)
    requires Sorted(s)
    ensures Sorted(KeepPresent(w, s))
    ensures forall x :: x in KeepPresent(w, s) <==> x in s && Present(w, x)
  {
    if s == [] {
    } else {
      var front, last := s[..|s| - 1], s[|s| - 1];
      KeepPresentFilters(w, front);
      assert s == front + [last];
      forall x | x in KeepPresent(w, front) ensures Less(x, last) {
        var i :| 0 <= i < |front| && front[i] == x;
        assert s[i] == x;
      }
    }
  }

  lemma RunTrace(root: string, w: World, jobs: seq<Job>, st: Stats, x: World)
    requires jobs != []
    ensures var first := Turn(root, w, jobs[0], st);
            x in Run(root, w, jobs, st).trace <==>
            x in first.trace || x in Run(root, first.Final(), jobs[1..], first.stats).trace
  {
  }

  /** It passes through the states of the run so far and of the new turn. */
  lemma {:induction false} RunSnocVisits(root: string, w: World, jobs: seq<Job>, job: Job, st: Stats, x: World)
    requires var front := Run(root, w, jobs, st);
             x in front.trace || x in Turn(root, front.Final(), job, front.stats).trace
    ensures x in Run(root, w, jobs + [job], st).trace
    decreases |jobs|
  {
    if jobs == [] {
      RunOne(root, w, job, st);
      TurnStarts(root, w, job, st);
    } else {
      assert (jobs + [job])[1..] == jobs[1..] + [job];
      var first := Turn(root, w, jobs[0], st);
      RunTrace(root, w, jobs, st, x);
      RunTrace(root, w, jobs + [job], st, x);
      var mid, u := FirstTurn(root, w, jobs, st);
      if x !in first.trace { RunSnocVisits(root, mid, jobs[1..], job, u, x); }
    }
  }

  /** A turn's first state is the one it starts in. */
  lemma TurnStarts(root: string, w: World, job: Job, st: Stats)
    ensures w in Turn(root, w, job, st).trace
  {
    assert MoveOne(root, w, job, st).trace[0] == w;
  }

  /** The members of s that skip does not have, in order. */
  function Lacking(s: seq<Sha>, skip: seq<Sha>): seq<Sha> {
    if s == [] then [] else
    var last := s[|s| - 1];
    Lacking(s[..|s| - 1], skip) + if last in skip then [] else [last]
  }

  /** The jobs one loop makes of a sorted set. */
  function JobsFor(s: seq<Sha>, skip: seq<Sha>, d: Direction, faults: Sha -> Faults): (jobs: seq<Job>)
    ensures |jobs| == |Lacking(s, skip)|
  {
    if s == [] then [] else
    var last := s[|s| - 1];
    JobsFor(s[..|s| - 1], skip, d, faults) + if last in skip then [] else [Job(last, d, faults(last))]
  }

  lemma MentionsJoined(a: seq<Job>, b: seq<Job>, s: Sha)
    ensures Mentions(a + b, s) <==> Mentions(a, s) || Mentions(b, s)
  {
    if Mentions(a, s) {
      var i :| 0 <= i < |a| && a[i].sha == s;
      assert (a + b)[i].sha == s;
    }
    if Mentions(b, s) {
      var i :| 0 <= i < |b| && b[i].sha == s;
      assert (a + b)[|a| + i].sha == s;
    }
    if Mentions(a + b, s) {
      var i :| 0 <= i < |a + b| && (a + b)[i].sha == s;
      assert if i < |a| then a[i].sha == s else b[i - |a|].sha == s;
    }
  }

  lemma {:induction false} JobsForMentions(s: seq<Sha>, skip: seq<Sha>, d: Direction, faults: Sha -> Faults, x: Sha)
    ensures Mentions(JobsFor(s, skip, d, faults), x) <==> x in s && x !in skip
  {
    if s == [] {
    } else {
      var front, last := s[..|s| - 1], s[|s| - 1];
      assert s == front + [last];
      JobsForMentions(front, skip, d, faults, x);
      var tail := if last in skip then [] else [Job(last, d, faults(last))];
      assert Mentions(tail, x) <==> x == last && last !in skip by { if tail != [] { assert tail[0].sha == last; } }
      MentionsJoined(JobsFor(front, skip, d, faults), tail, x);
    }
  }

  lemma {:induction false} JobsForDistinct(s: seq<Sha>, skip: seq<Sha>, d: Direction, faults: Sha -> Faults)
    requires Sorted(s)
    ensures DistinctJobs(JobsFor(s, skip, d, faults))
  {
    if s == [] {
    } else {
      var front, last := s[..|s| - 1], s[|s| - 1];
      JobsForDistinct(front, skip, d, faults);
      LessIrreflexive(last);
      JobsForMentions(front, skip, d, faults, last);
    }
  }

  lemma {:induction false} JobsForShape(s: seq<Sha>, skip: seq<Sha>, d: Direction, faults: Sha -> Faults)
    ensures forall job :: job in JobsFor(s, skip, d, faults) ==> job == Job(job.sha, d, faults(job.sha))
  {
    if s == [] {
    } else {
      JobsForShape(s[..|s| - 1], skip, d, faults);
    }
  }

  lemma JobsForStep(s: seq<Sha>, i: nat, skip: seq<Sha>, d: Direction, faults: Sha -> Faults, done: seq<Job>)
    requires i < |s|
    ensures var jobs := done + JobsFor(s[..i], skip, d, faults);
            done + JobsFor(s[..i + 1], skip, d, faults) ==
            if s[i] in skip then jobs else jobs + [Job(s[i], d, faults(s[i]))]
  {
    assert s[..i + 1][..i] == s[..i];
    assert JobsFor(s[..i], skip, d, faults) + [] == JobsFor(s[..i], skip, d, faults);
  }

  function ToSet(s: seq<Sha>): set<Sha> { set x | x in s }

  /** rotate_run_ex's two loops. */
  function LoopJobs(w: World, manifest: seq<Sha>, resident: seq<Sha>, faults: Sha -> Faults): seq<Job> {
    var kept := KeepPresent(w, resident);
    JobsFor(manifest, kept, Promote, faults) + JobsFor(kept, manifest, Demote, faults)
  }

  /** What the counters hold when the loops start. */
  function StartStats(w: World, manifest: seq<Sha>, resident: seq<Sha>): Stats {
    var kept := KeepPresent(w, resident);
    Stats(|Lacking(manifest, kept)|, |Lacking(kept, manifest)|, 0, 0, 0, 0, |resident| - |kept|, 0)
  }

  lemma {:induction false} LackingSize(s: seq<Sha>, skip: seq<Sha>, shas: set<Sha>)
    requires Sorted(s) && forall x :: x in shas <==> x in s && x !in skip
    ensures |Lacking(s, skip)| == |shas|
  {
    if s == [] {
      assert shas == {};
    } else {
      var front, last := s[..|s| - 1], s[|s| - 1];
      assert s == front + [last];
      LessIrreflexive(last);
      assert last !in front;
      LackingSize(front, skip, shas - {last});
    }
  }

  lemma {:induction false} AbsentSize(w: World, s: seq<Sha>, shas: set<Sha>)
    requires Sorted(s) && forall x :: x in shas <==> x in s && !Present(w, x)
    ensures |s| - |KeepPresent(w, s)| == |shas|
  {
    if s == [] {
      assert shas == {};
    } else {
      var front, last := s[..|s| - 1], s[|s| - 1];
      assert s == front + [last];
      LessIrreflexive(last);
      assert last !in front;
      AbsentSize(w, front, shas - {last});
    }
  }

  /** The counters the run starts with are the sizes of the diff and of what the
      filter dropped. */
  lemma StartCounts(w: World, manifest: seq<Sha>, resident: seq<Sha>)
    requires Sorted(manifest) && Sorted(resident)
    requires forall x :: x in resident <==> x in ResidentRows(w)
    ensures var st, m := StartStats(w, manifest, resident), ToSet(manifest);
            && st.toAdd == |ToAdd(w, m)| && st.toRemove == |ToRemove(w, m)|
            && st.respawned == |ResidentRows(w) - OnDisk(w)|
  {
    var kept, m := KeepPresent(w, resident), ToSet(manifest);
    KeepPresentFilters(w, resident);
    LackingSize(manifest, kept, ToAdd(w, m));
    LackingSize(kept, manifest, ToRemove(w, m));
    AbsentSize(w, resident, ResidentRows(w) - OnDisk(w));
  }

  /** Jobs for all of some tracks, all in one direction. */
  ghost predicate Covers(jobs: seq<Job>, shas: set<Sha>, d: Direction) {
    && DistinctJobs(jobs)
    && (forall i :: 0 <= i < |jobs| ==> jobs[i].sha in shas && jobs[i].dir == d)
    && (forall s :: s in shas ==> Mentions(jobs, s))
  }

  lemma JobsCover(s: seq<Sha>, skip: seq<Sha>, d: Direction, faults: Sha -> Faults, shas: set<Sha>)
    requires Sorted(s) && forall x :: x in shas <==> x in s && x !in skip
    ensures Covers(JobsFor(s, skip, d, faults), shas, d)
  {
    JobsForDistinct(s, skip, d, faults);
    JobsForShape(s, skip, d, faults);
    var jobs := JobsFor(s, skip, d, faults);
    forall x ensures Mentions(jobs, x) <==> x in shas { JobsForMentions(s, skip, d, faults, x); }
    forall i | 0 <= i < |jobs| ensures jobs[i].sha in shas && jobs[i].dir == d {
      assert jobs[i] in jobs && Mentions(jobs, jobs[i].sha);
    }
  }

  lemma JoinedPlan(w: World, m: set<Sha>, adds: seq<Job>, removes: seq<Job>)
    requires Covers(adds, ToAdd(w, m), Promote) && Covers(removes, ToRemove(w, m), Demote)
    ensures Plan(w, m, adds + removes)
  {
    forall s | s in ToAdd(w, m) + ToRemove(w, m) ensures Mentions(adds + removes, s) {
      MentionsJoined(adds, removes, s);
    }
  }

  /** The loops carry out the planned diff, adds before removes. */
  lemma LoopsFollowPlan(w: World, manifest: seq<Sha>, resident: seq<Sha>, faults: Sha -> Faults)
    requires Sorted(manifest) && Sorted(resident)
    requires forall x :: x in resident <==> x in ResidentRows(w)
    ensures Plan(w, ToSet(manifest), LoopJobs(w, manifest, resident, faults))
  {
    var kept, m := KeepPresent(w, resident), ToSet(manifest);
    KeepPresentFilters(w, resident);
    JobsCover(manifest, kept, Promote, faults, ToAdd(w, m));
    JobsCover(kept, manifest, Demote, faults, ToRemove(w, m));
    JoinedPlan(w, m, JobsFor(manifest, kept, Promote, faults), JobsFor(kept, manifest, Demote, faults));
  }

  /** The states copy_only passes through. */
  function CopyTrail(w: World, cur: Path, dst: Path, f: Faults): seq<World>
    requires cur in w.names
  {
    var w1 := CreateEmpty(w, dst);
    if dst in w.names || f.copy.CopyRefused? then [w]
    else if f.copy.CopyAborted? then [w, w1, if f.cleanup then w1 else Unlink(w1, dst)]
    else [w, w1, Fill(w1, dst, w.names[cur].data)]
  }

  class Rotator {
    const root: string
    var names: map<Path, File>
    var nextIno: nat
    var tracks: map<Sha, Path>
    var residency: map<Sha, Location>
    var stats: Stats
    ghost var trace: seq<World>  // the state after every write so far

    constructor (root: string, w: World)
      ensures this.root == root && State() == w && trace == []
    {
      this.root := root;
      names, nextIno, tracks, residency := w.names, w.nextIno, w.tracks, w.residency;
      stats := Stats(0, 0, 0, 0, 0, 0, 0, 0);
      trace := [];
    }

    function State(): World reads this { World(names, nextIno, tracks, residency) }

    /** UPDATE tracks, then the residency upsert. */
    method RecordMove(sha: Sha, dst: Path, d: Direction, f: Faults)
      modifies this
      ensures var o := Record(old(State()), sha, dst, d, f, 0, old(stats));
              State() == o.Final() && stats == o.stats && trace == old(trace) + o.trace
    {
      trace := trace + [State()];
      if f.updatePath || PathTaken(tracks, sha, dst) {
        stats := stats.(errors := stats.errors + 1);
      } else {
        tracks := tracks[sha := dst];
      }
      trace := trace + [State()];
      if f.upsert {
        stats := stats.(errors := stats.errors + 1);
      } else {
        residency := residency[sha := Target(d)];
      }
      trace := trace + [State()];
    }

    method DropSource(sha: Sha, cur: Path, dst: Path, d: Direction, f: Faults, ghost rc: int)
      modifies this
      ensures var o := FinishLinked(old(State()), sha, cur, dst, d, f, rc, old(stats));
              State() == o.Final() && stats == o.stats && trace == old(trace) + o.trace
    {
      trace := trace + [State()];
      if f.unlink {
        stats := stats.(errors := stats.errors + 1);
      } else {
        names := names - {cur};
      }
      RecordMove(sha, dst, d, f);
    }

    /** copy_only. */
    method CopyOnly(cur: Path, dst: Path, f: Faults) returns (rc: int)
      requires cur in names
      modifies this
      ensures tracks == old(tracks) && residency == old(residency) && stats == old(stats)
      ensures rc == if dst in old(names) || !f.copy.NoCopyFault? then -1 else 0
      ensures trace == old(trace) + CopyTrail(old(State()), cur, dst, f) && State() == trace[|trace| - 1]
    {
      trace := trace + [State()];
      if dst in names || f.copy.CopyRefused? { return -1; }
      var data := names[cur].data;
      names, nextIno := names[dst := File(nextIno, Partial)], nextIno + 1;
      trace := trace + [State()];
      if f.copy.CopyAborted? {
        if !f.cleanup { names := names - {dst}; }
        trace := trace + [State()];
        return -1;
      }
      names := names[dst := names[dst].(data := data)];
      trace := trace + [State()];
      return 0;
    }

    /** copy_and_unlink and what follows it. */
    method CopyOver(sha: Sha, cur: Path, dst: Path, d: Direction, f: Faults) returns (rc: int)
      requires cur in names
      modifies this
      ensures var o := MoveByCopy(old(State()), sha, cur, dst, d, f, old(stats));
              State() == o.Final() && stats == o.stats && rc == o.rc && trace == old(trace) + o.trace
    {
      rc := CopyOnly(cur, dst, f);
      if rc != 0 || f.unlink {
        stats := stats.(errors := stats.errors + 1);
        return -1;
      }
      names := names - {cur};
      stats := stats.(fallbackCopies := stats.fallbackCopies + 1);
      RecordMove(sha, dst, d, f);
    }

    method MoveOne(sha: Sha, d: Direction, f: Faults) returns (rc: int)
      modifies this
      ensures var o := Rotate.MoveOne(root, old(State()), Job(sha, d, f), old(stats));
              State() == o.Final() && stats == o.stats && rc == o.rc && trace == old(trace) + o.trace
    {
      if sha in tracks {
        var cur := tracks[sha];
        var swapped := Swap(root, cur, d);
        if swapped.Some? {
          rc := MoveTo(sha, cur, swapped.value, d, f);
          return;
        } else if Swap(root, cur, Reverse(d)).Some? && !f.upsert {
          trace := trace + [State()];
          residency := residency[sha := Target(d)];
          trace := trace + [State()];
          stats := stats.(alreadyApplied := stats.alreadyApplied + 1);
          return 1;
        }
      }
      trace := trace + [State()];
      stats := stats.(errors := stats.errors + 1);
      return -1;
    }

    method MoveTo(sha: Sha, cur: Path, dst: Path, d: Direction, f: Faults) returns (rc: int)
      modifies this
      ensures var o := MoveFile(old(State()), sha, cur, dst, d, f, old(stats));
              State() == o.Final() && stats == o.stats && rc == o.rc && trace == old(trace) + o.trace
    {
      if !f.mkdir {
        match LinkCall(State(), cur, dst, f.link) {
          case Linked =>
            trace := trace + [State()];
            names := names[dst := names[cur]];
            DropSource(sha, cur, dst, d, f, 0);
            return 0;
          case Exists =>
            if names[cur].ino == names[dst].ino {
              stats := stats.(alreadyApplied := stats.alreadyApplied + 1);
              DropSource(sha, cur, dst, d, f, 1);
              return 1;
            }
          case OtherDevice =>
            rc := CopyOver(sha, cur, dst, d, f);
            return;
          case _ =>
        }
      }
      trace := trace + [State()];
      stats := stats.(errors := stats.errors + 1);
      return -1;
    }

    /** Binary search in a sorted set. */
    static method SetContains(items: array<Sha>, n: nat, sha: Sha) returns (found: bool)
      requires n <= items.Length && Sorted(items[..n])
      ensures found <==> sha in items[..n]
    {
      var lo, hi := 0, n;
      while lo < hi
        invariant lo <= hi <= n
        invariant forall k :: 0 <= k < lo ==> Less(items[k], sha)
        invariant forall k :: hi <= k < n ==> Less(sha, items[k])
      {
        var mid := (lo + hi) / 2;
        if items[mid] == sha { return true; }
        LessTotal(items[mid], sha);
        if Less(items[mid], sha) {
          forall k | 0 <= k < mid ensures Less(items[k], sha) {
            assert items[..n][k] == items[k] && items[..n][mid] == items[mid];
            LessTransitive(items[k], items[mid], sha);
          }
          lo := mid + 1;
        } else {
          forall k | mid < k < n ensures Less(sha, items[k]) {
            assert items[..n][k] == items[k] && items[..n][mid] == items[mid];
            LessTransitive(sha, items[mid], items[k]);
          }
          hi := mid;
        }
      }
      LessIrreflexive(sha);
      return false;
    }

    /** Compacts the set in place to the rows whose file is on disk. */
    method FilterResidentPresent(items: array<Sha>) returns (n: nat)
      modifies this`stats, items
      ensures n <= items.Length && items[..n] == KeepPresent(State(), old(items[..]))
      ensures stats == old(stats).(respawned := old(stats).respawned + items.Length - n)
    {
      n := 0;
      for i := 0 to items.Length
        invariant n <= i && items[..n] == KeepPresent(State(), old(items[..i]))
        invariant items[i..] == old(items[i..])
        invariant stats == old(stats).(respawned := old(stats).respawned + i - n)
        invariant State() == old(State())
      {
        var sha := items[i];
        assert sha == old(items[i..])[0] && old(items[..i + 1]) == old(items[..i]) + [sha];
        assert old(items[..i + 1])[..i] == old(items[..i]);
        if Present(State(), sha) {
          items[n] := sha;
          n := n + 1;
        } else {
          stats := stats.(respawned := stats.respawned + 1);
        }
        assert items[i + 1..] == old(items[i..])[1..];
      }
      assert old(items[..items.Length]) == old(items[..]);
    }

    /** How many members of the first set the second lacks. */
    static method CountMissing(a: array<Sha>, an: nat, b: array<Sha>, bn: nat) returns (count: nat)
      requires an <= a.Length && bn <= b.Length && Sorted(b[..bn])
      ensures count == |Lacking(a[..an], b[..bn])|
    {
      count := 0;
      for i := 0 to an
        invariant count == |Lacking(a[..i], b[..bn])|
      {
        assert a[..i + 1][..i] == a[..i];
        var found := SetContains(b, bn, a[i]);
        if !found { count := count + 1; }
      }
    }

    /** move_one and the loop's own counter. */
    method TakeTurn(sha: Sha, d: Direction, f: Faults)
      modifies this
      ensures var o := Turn(root, old(State()), Job(sha, d, f), old(stats));
              State() == o.Final() && stats == o.stats && trace == old(trace) + o.trace
    {
      var before := stats.errors;
      var rc := MoveOne(sha, d, f);
      if rc == 0 && stats.errors == before {
        if d.Promote? {
          stats := stats.(added := stats.added + 1);
        } else {
          stats := stats.(removed := stats.removed + 1);
        }
      }
    }

    /** The jobs done so far have led from w to here, through every state
        recorded. */
    ghost predicate Reached(w: World, done: seq<Job>, st: Stats)
      reads this
    {
      var o := Run(root, w, done, st);
      State() == o.Final() && stats == o.stats && forall x :: x in trace ==> x in o.trace
    }

    method NextTurn(sha: Sha, d: Direction, f: Faults, ghost w: World, ghost done: seq<Job>, ghost st: Stats)
      requires Reached(w, done, st)
      modifies this
      ensures Reached(w, done + [Job(sha, d, f)], st)
    {
      ghost var job := Job(sha, d, f);
      ghost var before := trace;
      ghost var turn := Turn(root, State(), job, stats);
      TakeTurn(sha, d, f);
      RunSnoc(root, w, done, job, st);
      forall x | x in trace ensures x in Run(root, w, done + [job], st).trace {
        assert x in before || x in turn.trace;
        RunSnocVisits(root, w, done, job, st, x);
      }
    }

    /** One of the two loops: a turn for every member of s that other lacks. */
    method Loop(s: array<Sha>, sn: nat, other: array<Sha>, on: nat, d: Direction, faults: Sha -> Faults,
                ghost w: World, ghost done: seq<Job>, ghost st: Stats)
      requires sn <= s.Length && on <= other.Length && Sorted(other[..on]) && Reached(w, done, st)
      modifies this
      ensures Reached(w, done + JobsFor(s[..sn], other[..on], d, faults), st)
    {
      ghost var jobs := done;
      assert done + [] == done;
      for i := 0 to sn
        invariant jobs == done + JobsFor(s[..i], other[..on], d, faults)
        invariant Reached(w, jobs, st)
      {
        JobsForStep(s[..], i, other[..on], d, faults, done);
        assert s[..][..i] == s[..i] && s[..][..i + 1] == s[..i + 1];
        var found := SetContains(other, on, s[i]);
        if !found {
          NextTurn(s[i], d, faults(s[i]), w, jobs, st);
          jobs := jobs + [Job(s[i], d, faults(s[i]))];
        }
      }
    }

    /** Heals the resident set against the disk and counts the diff. */
    method Prepare(manifest: array<Sha>, resident: array<Sha>) returns (n: nat)
      requires manifest != resident && Sorted(manifest[..]) && Sorted(resident[..])
      modifies this`stats, resident
      ensures n <= resident.Length && resident[..n] == KeepPresent(State(), old(resident[..]))
      ensures stats == StartStats(State(), manifest[..], old(resident[..])) && Sorted(resident[..n])
    {
      KeepPresentFilters(State(), resident[..]);
      stats := Stats(0, 0, 0, 0, 0, 0, 0, 0);
      n := FilterResidentPresent(resident);
      assert manifest[..manifest.Length] == manifest[..];
      var toAdd := CountMissing(manifest, manifest.Length, resident, n);
      var toRemove := CountMissing(resident, n, manifest, manifest.Length);
      stats := stats.(toAdd := toAdd, toRemove := toRemove);
    }

    /** rotate_run_ex, given the two sorted sets it loads: every state it
        passes through and the one it ends in are those of the planned jobs, and
        the counters count what was completed. */
    method RotateRun(manifest: array<Sha>, resident: array<Sha>, faults: Sha -> Faults)
      requires manifest != resident && Sorted(manifest[..]) && Sorted(resident[..]) && trace == []
      modifies this, resident
      ensures Reached(old(State()), LoopJobs(old(State()), manifest[..], old(resident[..]), faults),
                      StartStats(old(State()), manifest[..], old(resident[..])))
      ensures var w, jobs := old(State()), LoopJobs(old(State()), manifest[..], old(resident[..]), faults);
              var st := StartStats(w, manifest[..], old(resident[..]));
              && stats.toAdd == st.toAdd && stats.toRemove == st.toRemove && stats.respawned == st.respawned
              && stats.added == |Completed(root, w, jobs, st, Promote)|
              && stats.removed == |Completed(root, w, jobs, st, Demote)|
              && (stats.errors == 0 ==>
                    stats.added + stats.removed + stats.alreadyApplied == stats.toAdd + stats.toRemove
                    && stats.fallbackCopies == |Copied(root, w, jobs, st)|)
    {
      ghost var w := State();
      var n := Prepare(manifest, resident);
      ghost var st := stats;
      assert manifest[..manifest.Length] == manifest[..];
      ghost var adds := JobsFor(manifest[..], resident[..n], Promote, faults);
      assert Reached(w, [], st);
      Loop(manifest, manifest.Length, resident, n, Promote, faults, w, [], st);
      assert [] + adds == adds;
      Loop(resident, n, manifest, manifest.Length, Demote, faults, w, adds, st);
      RunCounts(root, w, LoopJobs(w, manifest[..], old(resident[..]), faults), st);
      CountersAddUp(root, w, LoopJobs(w, manifest[..], old(resident[..]), faults), st);
    }
  }
}
