/** The non-transcode rotation of rotate.c: what move_one and the ADD/REMOVE
    loops do to the disk and the tables, write by write, under any syscall and
    database failure. */
module Rotate {
  import opened Paths
  import opened Jobs

  type Sha = string
  type Path = string

  /** Audio content is named by its sha256; Partial is an unfinished copy. */
  datatype Data = Audio(sha: Sha) | Partial
  datatype File = File(ino: nat, data: Data)
  datatype Location = Resident | Archive

  /** The disk, and the columns of tracks and residency_state rotate uses. */
  datatype World = World(names: map<Path, File>, nextIno: nat,
                         tracks: map<Sha, Path>, residency: map<Sha, Location>)

  datatype Stats = Stats(toAdd: nat, toRemove: nat, added: nat, removed: nat, alreadyApplied: nat,
                         fallbackCopies: nat, respawned: nat, errors: nat)

  datatype LinkFault = NoLinkFault | CrossDevice | OtherLinkError
  datatype CopyFault = NoCopyFault | CopyRefused | CopyAborted

  /** Which of the calls of one move_one fail. */
  datatype Faults = Faults(mkdir: bool, link: LinkFault, copy: CopyFault, cleanup: bool, unlink: bool,
                           updatePath: bool, upsert: bool)

  const NO_FAULTS := Faults(false, NoLinkFault, NoCopyFault, false, false, false, false)

  /** One call of move_one made by the ADD or the REMOVE loop. */
  type Job = Move<Faults>

  /** Every state a crash can leave, in order; the last one is the result. */
  datatype Outcome = Outcome(trace: seq<World>, rc: int, stats: Stats) {
    ghost predicate Valid() { trace != [] }
    function Final(): World requires Valid() { trace[|trace| - 1] }
  }

  function Target(d: Direction): Location { if d.Promote? then Resident else Archive }

  // ---- single writes -------------------------------------------------------

  function AddLink(w: World, src: Path, dst: Path): World
    requires src in w.names
  {
    w.(names := w.names[dst := w.names[src]])
  }

  function Unlink(w: World, p: Path): World {
    w.(names := w.names - {p})
  }

  function CreateEmpty(w: World, dst: Path): World {
    w.(names := w.names[dst := File(w.nextIno, Partial)], nextIno := w.nextIno + 1)
  }

  function Fill(w: World, dst: Path, data: Data): World
    requires dst in w.names
  {
    w.(names := w.names[dst := w.names[dst].(data := data)])
  }

  function SetPath(w: World, sha: Sha, p: Path): World {
    w.(tracks := w.tracks[sha := p])
  }

  function SetLocation(w: World, sha: Sha, d: Direction): World {
    w.(residency := w.residency[sha := Target(d)])
  }

  /** UPDATE tracks SET path violates UNIQUE(path). */
  predicate PathTaken(tracks: map<Sha, Path>, sha: Sha, p: Path) {
    exists o :: o in tracks && o != sha && tracks[o] == p
  }

  // ---- move_one ------------------------------------------------------------

  datatype LinkResult = Linked | Exists | Missing | OtherDevice | Failed

  function LinkCall(w: World, src: Path, dst: Path, f: LinkFault): LinkResult {
    if f.OtherLinkError? then Failed
    else if src !in w.names then Missing
    else if dst in w.names then Exists
    else if f.CrossDevice? then OtherDevice
    else Linked
  }

  function Bump(b: bool): nat { if b then 1 else 0 }

  function Fail(ws: seq<World>, st: Stats): Outcome {
    Outcome(ws, -1, st.(errors := st.errors + 1))
  }

  /** The two database writes that end a move. */
  function Record(w: World, sha: Sha, dst: Path, d: Direction, f: Faults, rc: int, st: Stats): (o: Outcome)
    ensures o.Valid()
  {
    var badPath := f.updatePath || PathTaken(w.tracks, sha, dst);
    var w1 := if badPath then w else SetPath(w, sha, dst);
    var w2 := if f.upsert then w1 else SetLocation(w1, sha, d);
    Outcome([w, w1, w2], rc, st.(errors := st.errors + Bump(badPath) + Bump(f.upsert)))
  }

  /** Both names lead to the file: drop the old one, then record. */
  function FinishLinked(w: World, sha: Sha, cur: Path, dst: Path, d: Direction, f: Faults, rc: int,
                        st: Stats): (o: Outcome)
    ensures o.Valid()
  {
    var w1 := if f.unlink then w else Unlink(w, cur);
    var o := Record(w1, sha, dst, d, f, rc, st.(errors := st.errors + Bump(f.unlink)));
    o.(trace := [w] + o.trace)
  }

  /** copy_and_unlink, then record. Clearing away an aborted copy may fail. */
  function MoveByCopy(w: World, sha: Sha, cur: Path, dst: Path, d: Direction, f: Faults, st: Stats): (o: Outcome)
    requires cur in w.names
    ensures o.Valid()
  {
    if dst in w.names || f.copy.CopyRefused? then Fail([w], st) else
    var w1 := CreateEmpty(w, dst);
    if f.copy.CopyAborted? then Fail([w, w1, if f.cleanup then w1 else Unlink(w1, dst)], st) else
    var w2 := Fill(w1, dst, w.names[cur].data);
    if f.unlink then Fail([w, w1, w2], st) else
    var o := Record(Unlink(w2, cur), sha, dst, d, f, 0, st.(fallbackCopies := st.fallbackCopies + 1));
    o.(trace := [w, w1, w2] + o.trace)
  }

  /** The row names a file on the source side: link it over, or copy it. */
  function MoveFile(w: World, sha: Sha, cur: Path, dst: Path, d: Direction, f: Faults, st: Stats): (o: Outcome)
    ensures o.Valid()
  {
    if f.mkdir then Fail([w], st) else
    match LinkCall(w, cur, dst, f.link)
    case Linked =>
      var o := FinishLinked(AddLink(w, cur, dst), sha, cur, dst, d, f, 0, st);
      o.(trace := [w] + o.trace)
    case Exists =>
      if w.names[cur].ino != w.names[dst].ino then Fail([w], st)
      else FinishLinked(w, sha, cur, dst, d, f, 1, st.(alreadyApplied := st.alreadyApplied + 1))
    case OtherDevice => MoveByCopy(w, sha, cur, dst, d, f, st)
    case _ => Fail([w], st)
  }

  function MoveOne(root: string, w: World, job: Job, st: Stats): (o: Outcome)
    ensures o.Valid()
  {
    var Job(sha, d, f) := job;
    if sha !in w.tracks then Fail([w], st) else
    var cur := w.tracks[sha];
    match Swap(root, cur, d)
    case Some(dst) => MoveFile(w, sha, cur, dst, d, f, st)
    case None =>
      if Swap(root, cur, Reverse(d)).None? || f.upsert then Fail([w], st)
      else Outcome([w, SetLocation(w, sha, d)], 1, st.(alreadyApplied := st.alreadyApplied + 1))
  }

  /** One turn of the ADD or REMOVE loop: move_one plus its counter. */
  function Turn(root: string, w: World, job: Job, st: Stats): (o: Outcome)
    ensures o.Valid()
  {
    var o := MoveOne(root, w, job, st);
    if o.rc == 0 && o.stats.errors == st.errors then
      if job.dir.Promote? then o.(stats := o.stats.(added := o.stats.added + 1))
      else o.(stats := o.stats.(removed := o.stats.removed + 1))
    else o
  }

  /** The two loops, job after job. */
  function Run(root: string, w: World, jobs: seq<Job>, st: Stats): (o: Outcome)
    ensures o.Valid()
    decreases |jobs|
  {
    if jobs == [] then Outcome([w], 0, st) else
    var first := Turn(root, w, jobs[0], st);
    var rest := Run(root, first.Final(), jobs[1..], first.stats);
    rest.(trace := first.trace + rest.trace)
  }

  // ---- no content loses its last link --------------------------------------

  ghost predicate ValidInodes(w: World) {
    && (forall p :: p in w.names ==> w.names[p].ino < w.nextIno)
    && (forall p, q :: p in w.names && q in w.names && w.names[p].ino == w.names[q].ino ==> w.names[p] == w.names[q])
  }

  ghost function Contents(w: World): set<Data> {
    set p | p in w.names :: w.names[p].data
  }

  /** Everything that has a name in w still has one in x. */
  ghost predicate Keeps(w: World, x: World) {
    Contents(w) <= Contents(x)
  }

  lemma NewName(w: World, x: World, dst: Path, file: File)
    requires ValidInodes(w) && dst !in w.names && x.names == w.names[dst := file] && x.nextIno >= w.nextIno
    requires file.ino < x.nextIno
    requires file.ino >= w.nextIno || exists p :: p in w.names && w.names[p] == file
    ensures ValidInodes(x) && Keeps(w, x)
  {
    forall c | c in Contents(w) ensures c in Contents(x) {
      var p :| p in w.names && w.names[p].data == c;
      assert p in x.names && x.names[p].data == c;
    }
  }

  /** Dropping one of two names of the same content loses nothing. */
  lemma DropName(w: World, x: World, cur: Path, dst: Path)
    requires ValidInodes(w) && cur != dst && cur in w.names && dst in w.names
    requires w.names[cur].data == w.names[dst].data
    requires x.names == w.names - {cur} && x.nextIno == w.nextIno
    ensures ValidInodes(x) && Keeps(w, x)
  {
    forall c | c in Contents(w) ensures c in Contents(x) {
      var p :| p in w.names && w.names[p].data == c;
      var q := if p == cur then dst else p;
      assert q in x.names && x.names[q].data == c;
    }
  }

  /** x is w with none, one or both of the closing database writes done. */
  ghost predicate Recorded(w: World, x: World, sha: Sha, dst: Path, d: Direction) {
    && x.names == w.names && x.nextIno == w.nextIno
    && (x.tracks == w.tracks || x.tracks == w.tracks[sha := dst])
    && (x.residency == w.residency || x.residency == w.residency[sha := Target(d)])
  }

  lemma FinishTrace(w: World, sha: Sha, cur: Path, dst: Path, d: Direction, f: Faults, rc: int, st: Stats, x: World)
    requires x in FinishLinked(w, sha, cur, dst, d, f, rc, st).trace
    ensures x == w || Recorded(if f.unlink then w else Unlink(w, cur), x, sha, dst, d)
  {
    var w1 := if f.unlink then w else Unlink(w, cur);
    var o := Record(w1, sha, dst, d, f, rc, st.(errors := st.errors + Bump(f.unlink)));
    assert x == w || x in o.trace;
  }

  lemma FinishKeeps(w: World, sha: Sha, cur: Path, dst: Path, d: Direction, f: Faults, rc: int, st: Stats, x: World)
    requires ValidInodes(w) && cur != dst
    requires cur in w.names && dst in w.names && w.names[cur] == w.names[dst]
    requires x in FinishLinked(w, sha, cur, dst, d, f, rc, st).trace
    ensures ValidInodes(x) && Keeps(w, x)
  {
    FinishTrace(w, sha, cur, dst, d, f, rc, st, x);
    if x.names != w.names { DropName(w, x, cur, dst); }
  }

  /** The states a copy goes through: an unfinished copy, taken back or
      completed, and then the old name dropped. */
  lemma CopyTrace(w: World, sha: Sha, cur: Path, dst: Path, d: Direction, f: Faults, st: Stats, x: World)
    requires cur in w.names && dst !in w.names
    requires x in MoveByCopy(w, sha, cur, dst, d, f, st).trace
    ensures var w1 := CreateEmpty(w, dst);
            var w2 := Fill(w1, dst, w.names[cur].data);
            x == w || x == w1 || x == Unlink(w1, dst) || x == w2 || Recorded(Unlink(w2, cur), x, sha, dst, d)
  {
    var w1 := CreateEmpty(w, dst);
    var w2 := Fill(w1, dst, w.names[cur].data);
    if !f.copy.CopyRefused? && !f.copy.CopyAborted? && !f.unlink {
      var o := Record(Unlink(w2, cur), sha, dst, d, f, 0, st.(fallbackCopies := st.fallbackCopies + 1));
      assert x == w || x == w1 || x == w2 || x in o.trace;
    }
  }

  /** An unfinished or a complete copy is one more name. */
  lemma CopyNames(w: World, x: World, cur: Path, dst: Path, data: Data)
    requires ValidInodes(w) && cur in w.names && dst !in w.names && data in {Partial, w.names[cur].data}
    requires x == CreateEmpty(w, dst) || x == Fill(CreateEmpty(w, dst), dst, data)
    ensures ValidInodes(x) && Keeps(w, x)
  {
    if x == CreateEmpty(w, dst) {
      NewName(w, x, dst, File(w.nextIno, Partial));
    } else {
      assert x.names == w.names[dst := File(w.nextIno, data)];
      NewName(w, x, dst, File(w.nextIno, data));
    }
  }

  lemma CopyKeeps(w: World, sha: Sha, cur: Path, dst: Path, d: Direction, f: Faults, st: Stats, x: World)
    requires ValidInodes(w) && cur != dst && cur in w.names && dst !in w.names
    requires x in MoveByCopy(w, sha, cur, dst, d, f, st).trace
    ensures ValidInodes(x) && Keeps(w, x)
  {
    CopyTrace(w, sha, cur, dst, d, f, st, x);
    var w1 := CreateEmpty(w, dst);
    var w2 := Fill(w1, dst, w.names[cur].data);
    if x == w1 || x == w2 {
      CopyNames(w, x, cur, dst, w.names[cur].data);
    } else if x == Unlink(w1, dst) {
      assert x.names == w.names;
    } else if x != w {
      CopyNames(w, w2, cur, dst, w.names[cur].data);
      DropName(w2, x, cur, dst);
    }
  }

  lemma FileKeeps(w: World, sha: Sha, cur: Path, dst: Path, d: Direction, f: Faults, st: Stats, x: World)
    requires ValidInodes(w) && cur != dst && x in MoveFile(w, sha, cur, dst, d, f, st).trace
    ensures ValidInodes(x) && Keeps(w, x)
  {
    if x != w {
      match LinkCall(w, cur, dst, f.link)
      case Linked =>
        NewName(w, AddLink(w, cur, dst), dst, w.names[cur]);
        FinishKeeps(AddLink(w, cur, dst), sha, cur, dst, d, f, 0, st, x);
      case Exists => FinishKeeps(w, sha, cur, dst, d, f, 1, st.(alreadyApplied := st.alreadyApplied + 1), x);
      case OtherDevice => CopyKeeps(w, sha, cur, dst, d, f, st, x);
      case _ =>
    }
  }

  lemma MoveKeeps(root: string, w: World, job: Job, st: Stats, x: World)
    requires ValidInodes(w) && x in MoveOne(root, w, job, st).trace
    ensures ValidInodes(x) && Keeps(w, x)
  {
    var Job(sha, d, f) := job;
    if sha in w.tracks && Swap(root, w.tracks[sha], d).Some? {
      var cur, dst := w.tracks[sha], Swap(root, w.tracks[sha], d).value;
      SwapUndo(root, cur, d);
      FileKeeps(w, sha, cur, dst, d, f, st, x);
    }
  }

  /** The first turn of a run, and the run that remains. */
  lemma FirstTurn(root: string, w: World, jobs: seq<Job>, st: Stats) returns (mid: World, u: Stats)
    requires jobs != []
    ensures Turn(root, w, jobs[0], st).Valid() && MoveOne(root, w, jobs[0], st).Valid()
    ensures mid == Turn(root, w, jobs[0], st).Final() == MoveOne(root, w, jobs[0], st).Final()
    ensures u == Turn(root, w, jobs[0], st).stats
    ensures Run(root, w, jobs, st).Final() == Run(root, mid, jobs[1..], u).Final()
    ensures Run(root, w, jobs, st).stats == Run(root, mid, jobs[1..], u).stats
  {
    var first := Turn(root, w, jobs[0], st);
    mid, u := first.Final(), first.stats;
  }

  lemma RunSplit(root: string, w: World, jobs: seq<Job>, st: Stats, x: World) returns (mid: World, u: Stats)
    requires jobs != [] && x in Run(root, w, jobs, st).trace
    ensures mid in Turn(root, w, jobs[0], st).trace
    ensures x in Turn(root, w, jobs[0], st).trace || x in Run(root, mid, jobs[1..], u).trace
  {
    var first := Turn(root, w, jobs[0], st);
    mid, u := first.Final(), first.stats;
  }

  /** What every state of every turn keeps, every state of a run keeps. */
  lemma {:induction false} RunInvariant(root: string, w: World, jobs: seq<Job>, st: Stats, x: World,
                                        p: World -> bool, q: Job -> bool)
    requires forall y: World, job: Job, u: Stats, z: World ::
               p(y) && q(job) && z in Turn(root, y, job, u).trace ==> p(z)
    requires p(w) && (forall i :: 0 <= i < |jobs| ==> q(jobs[i]))
    requires x in Run(root, w, jobs, st).trace
    ensures p(x)
    decreases |jobs|
  {
    if jobs == [] {
    } else {
      var mid, u := RunSplit(root, w, jobs, st, x);
      if x !in Turn(root, w, jobs[0], st).trace {
        RunInvariant(root, mid, jobs[1..], u, x, p, q);
      }
    }
  }

  /** In every run of the two loops, whatever fails and wherever a crash
      stops it, no content loses its last name. */
  lemma NoContentLost(root: string, w: World, jobs: seq<Job>, st: Stats, x: World)
    requires ValidInodes(w) && x in Run(root, w, jobs, st).trace
    ensures ValidInodes(x) && Keeps(w, x)
  {
    var p := y => ValidInodes(y) && Keeps(w, y);
    forall y: World, job: Job, u: Stats, z: World | p(y) && z in Turn(root, y, job, u).trace ensures p(z) {
      MoveKeeps(root, y, job, u, z);
    }
    RunInvariant(root, w, jobs, st, x, p, _ => true);
  }
}
