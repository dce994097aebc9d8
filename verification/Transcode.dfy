/** The transcode mode of rotate.c. Originals stay under archive/; a promoted
    track gets an encoded copy at a path derived from its own under resident/. */
module Transcode {
  import opened Prelude
  import opened Paths
  import opened Jobs

  type Sha = string
  type Path = string

  /** Torn is the output of an encoder that did not finish. */
  datatype Data = Source(sha: Sha) | Encoded(of: Data) | Torn
  datatype Row = Row(resident: bool, copy: Option<Path>)
  datatype World = World(files: map<Path, Data>, tracks: map<Sha, Path>, rows: map<Sha, Row>)
  datatype Config = Config(root: string, format: string)

  datatype Stats = Stats(added: nat, removed: nat, alreadyApplied: nat, errors: nat)

  /** Which calls fail. A failed encode may leave output behind, and clearing
      it may fail. */
  datatype Faults = Faults(mkdir: bool, encode: bool, begun: bool, cleanup: bool, stat: bool, upsert: bool,
                           unlink: bool)

  type Job = Move<Faults>

  /** Every state a crash can leave, in order; the last one is the result. */
  datatype Outcome = Outcome(trace: seq<World>, rc: int, stats: Stats) {
    ghost predicate Valid() { trace != [] }
    function Final(): World requires Valid() { trace[|trace| - 1] }
  }

  // ---- derived paths -------------------------------------------------------

  /** Where c last stands in s, or |s|. */
  function LastOf(s: string, c: char): (i: nat)
    ensures i <= |s| && (i < |s| ==> s[i] == c) && c !in (if i < |s| then s[i + 1..] else s)
  {
    if s == "" then 0 else
    var n := |s| - 1;
    if s[n] == c then n else
    var i := LastOf(s[..n], c);
    assert s == s[..n] + [s[n]];
    if i == n then n + 1 else
      assert s[i + 1..] == s[..n][i + 1..] + [s[n]];
      i
  }

  function Base(path: Path): string {
    var i := LastOf(path, '/');
    if i < |path| then path[i + 1..] else path
  }

  /** The path up to its basename's last dot. */
  function Stem(path: Path): string {
    path[..|path| - |Base(path)| + LastOf(Base(path), '.')]
  }

  /** path_with_ext. */
  function WithExt(path: Path, ext: string): Path { Stem(path) + ext }

  function DstExt(format: string): Option<string> {
    if format == "opus" then Some(".opus")
    else if format == "aac" then Some(".m4a")
    else if format == "flac" then Some(".flac")
    else None
  }

  /** The formats the encoder takes. */
  predicate HasCodec(format: string) { format == "opus" || format == "aac" }

  /** Where the copy of a track goes; None when it cannot have one. */
  function Derived(c: Config, tracks: map<Sha, Path>, sha: Sha): Option<Path> {
    if sha !in tracks then None else
    var moved := Swap(c.root, tracks[sha], Promote);
    var ext := DstExt(c.format);
    if moved.None? || ext.None? then None else Some(WithExt(moved.value, ext.value))
  }

  predicate InTree(root: string, segment: string, p: Path) {
    At(root, segment, "") <= p
  }

  lemma LastOfIs(s: string, c: char, i: nat)
    requires i < |s| && s[i] == c && c !in s[i + 1..]
    ensures LastOf(s, c) == i
  {
    var k := LastOf(s, c);
    forall j | k < j < |s| ensures s[j] != c { assert s[k + 1..][j - k - 1] == s[j]; }
    forall j | i < j < |s| ensures s[j] != c { assert s[i + 1..][j - i - 1] == s[j]; }
  }

  lemma BaseIs(path: string, k: nat)
    requires k <= |path| && '/' !in path[k..] && (k > 0 ==> path[k - 1] == '/')
    ensures Base(path) == path[k..]
  {
    if k > 0 {
      LastOfIs(path, '/', k - 1);
    } else {
      assert path[0..] == path;
    }
  }

  lemma BaseStart(path: string) returns (k: nat)
    ensures k <= |path| && '/' !in path[k..] && (k > 0 ==> path[k - 1] == '/') && Base(path) == path[k..]
  {
    var i := LastOf(path, '/');
    k := if i < |path| then i + 1 else 0;
    assert path[0..] == path;
  }

  lemma BaseInTree(dir: string, tail: string)
    requires dir != "" && dir[|dir| - 1] == '/'
    ensures Base(dir + tail) == Base(tail)
  {
    var k := BaseStart(tail);
    assert (dir + tail)[|dir| + k..] == tail[k..];
    BaseIs(dir + tail, |dir| + k);
  }

  lemma TakeInTree(dir: string, tail: string, n: nat)
    requires n <= |tail|
    ensures (dir + tail)[..|dir| + n] == dir + tail[..n]
  {
  }

  lemma StemInTree(dir: string, tail: string)
    requires dir != "" && dir[|dir| - 1] == '/'
    ensures Stem(dir + tail) == dir + Stem(tail)
  {
    BaseInTree(dir, tail);
    BaseNotLonger(tail);
    var n := |tail| - |Base(tail)| + LastOf(Base(tail), '.');
    TakeInTree(dir, tail, n);
  }

  lemma BaseNotLonger(path: string)
    ensures |Base(path)| <= |path|
  {}

  lemma AtSplit(root: string, segment: string, tail: string)
    ensures var dir := At(root, segment, "");
            dir != "" && dir[|dir| - 1] == '/' && At(root, segment, tail) == dir + tail
  {
  }

  lemma StemOfAt(root: string, segment: string, tail: string)
    ensures Stem(At(root, segment, tail)) == At(root, segment, Stem(tail))
  {
    var dir := At(root, segment, "");
    AtSplit(root, segment, tail);
    AtSplit(root, segment, Stem(tail));
    StemInTree(dir, tail);
  }

  /** The copy of archive/dir/name.ext is resident/dir/name with the extension of
      the format, and there is none for another format. */
  lemma DerivedIs(c: Config, tracks: map<Sha, Path>, sha: Sha, dir: string, name: string, ext: string)
    requires sha in tracks && tracks[sha] == At(c.root, "archive", dir + (name + "." + ext))
    requires (dir == "" || dir[|dir| - 1] == '/') && '/' !in name && '/' !in ext && '.' !in ext
    ensures Derived(c, tracks, sha) ==
            if c.format == "opus" then Some(At(c.root, "resident", dir + name) + ".opus")
            else if c.format == "aac" then Some(At(c.root, "resident", dir + name) + ".m4a")
            else if c.format == "flac" then Some(At(c.root, "resident", dir + name) + ".flac")
            else None
  {
    var tail := dir + (name + "." + ext);
    SwapForm(c.root, tracks[sha], "archive", "resident");
    forall e ensures WithExt(At(c.root, "resident", tail), e) == At(c.root, "resident", dir + name) + e {
      Renamed(c.root, dir, name, ext, e);
    }
  }

  lemma Renamed(root: string, dir: string, name: string, ext: string, e: string)
    requires (dir == "" || dir[|dir| - 1] == '/') && '/' !in name && '/' !in ext && '.' !in ext
    ensures WithExt(At(root, "resident", dir + (name + "." + ext)), e) == At(root, "resident", dir + name) + e
  {
    StemOfName(dir, name, ext);
    StemOfAt(root, "resident", dir + (name + "." + ext));
  }

  lemma StemOfName(dir: string, name: string, ext: string)
    requires (dir == "" || dir[|dir| - 1] == '/') && '/' !in name && '/' !in ext && '.' !in ext
    ensures Stem(dir + (name + "." + ext)) == dir + name
  {
    var base := name + "." + ext;
    StemOfBase(name, ext);
    if dir == "" {
      assert dir + base == base && dir + name == name;
    } else {
      StemInTree(dir, base);
    }
  }

  lemma StemOfBase(name: string, ext: string)
    requires '/' !in name && '/' !in ext && '.' !in ext
    ensures Stem(name + "." + ext) == name
  {
    var base := name + "." + ext;
    LastDot(name, ext);
    assert '/' !in base;
    assert Base(base) == base && base[..|name|] == name;
  }

  lemma LastDot(name: string, ext: string)
    requires '.' !in ext
    ensures LastOf(name + "." + ext, '.') == |name|
  {
    var base := name + "." + ext;
    assert base[|name| + 1..] == ext && base[|name|] == '.';
    LastOfIs(base, '.', |name|);
  }

  lemma DerivedForm(c: Config, tracks: map<Sha, Path>, sha: Sha) returns (stem: string)
    requires Derived(c, tracks, sha).Some?
    ensures Stem(tracks[sha]) == At(c.root, "archive", stem)
    ensures Derived(c, tracks, sha).value == At(c.root, "resident", stem) + DstExt(c.format).value
  {
    var tail := SwapTail(c.root, tracks[sha], Promote);
    stem := Stem(tail);
    StemOfAt(c.root, "archive", tail);
    StemOfAt(c.root, "resident", tail);
  }

  /** Changing the extension never leaves the tree. */
  lemma DerivedUnder(c: Config, tracks: map<Sha, Path>, sha: Sha)
    requires Derived(c, tracks, sha).Some?
    ensures InTree(c.root, "resident", Derived(c, tracks, sha).value)
  {
    var stem := DerivedForm(c, tracks, sha);
    UnderTail(c.root, "resident", stem, DstExt(c.format).value);
  }

  lemma UnderTail(root: string, segment: string, stem: string, ext: string)
    ensures InTree(root, segment, At(root, segment, stem) + ext)
  {
    AtSplit(root, segment, stem);
    assert At(root, segment, stem) + ext == At(root, segment, "") + (stem + ext);
  }

  lemma SameStem(root: string, a: string, b: string, ext: string)
    ensures At(root, "resident", a) + ext == At(root, "resident", b) + ext <==>
            At(root, "archive", a) == At(root, "archive", b)
  {
    var p, q := At(root, "resident", a), At(root, "resident", b);
    if p + ext == q + ext {
      assert p == (p + ext)[..|p|] && q == (q + ext)[..|q|];
      TailUnique(root, "resident", a, b);
    }
    if At(root, "archive", a) == At(root, "archive", b) { TailUnique(root, "archive", a, b); }
  }

  /** Two tracks share a copy exactly when their paths differ in nothing but
      the extension. */
  lemma SharedExactly(c: Config, tracks: map<Sha, Path>, s: Sha, t: Sha)
    requires Derived(c, tracks, s).Some? && Derived(c, tracks, t).Some?
    ensures Derived(c, tracks, s) == Derived(c, tracks, t) <==> Stem(tracks[s]) == Stem(tracks[t])
  {
    var a := DerivedForm(c, tracks, s);
    var b := DerivedForm(c, tracks, t);
    SameStem(c.root, a, b, DstExt(c.format).value);
  }

  // ---- promote_transcode, demote_transcode ---------------------------------

  function SetFile(w: World, p: Path, d: Data): World { w.(files := w.files[p := d]) }

  function Fail(ws: seq<World>, st: Stats): Outcome { Outcome(ws, -1, st.(errors := st.errors + 1)) }

  function Upsert(w: World, sha: Sha, row: Row): World { w.(rows := w.rows[sha := row]) }

  /** The encoder's run from src to dst. */
  function Encode(c: Config, w: World, src: Path, dst: Path, f: Faults, st: Stats): (o: Outcome)
    ensures o.Valid() && o.stats.errors >= st.errors
  {
    if !HasCodec(c.format) || src !in w.files then Fail([w], st) else
    var torn := SetFile(w, dst, Torn);
    if f.encode then
      if !f.begun then Fail([w], st) else Fail([w, torn, if f.cleanup then torn else w], st)
    else
      var done := SetFile(w, dst, Encoded(w.files[src]));
      if f.stat then Fail([w, torn, done], st) else Outcome([w, torn, done], 0, st)
  }

  function PromoteCopy(c: Config, w: World, sha: Sha, dst: Path, f: Faults, st: Stats): (o: Outcome)
    requires sha in w.tracks
    ensures o.Valid() && o.stats.errors >= st.errors
  {
    var row := Row(true, Some(dst));
    if dst in w.files then
      if f.upsert then Fail([w], st)
      else Outcome([w, Upsert(w, sha, row)], 1, st.(alreadyApplied := st.alreadyApplied + 1))
    else if f.mkdir then Fail([w], st) else
    var o := Encode(c, w, w.tracks[sha], dst, f, st);
    if o.rc != 0 then o
    else if f.upsert then Fail(o.trace, st)
    else Outcome(o.trace + [Upsert(SetFile(w, dst, Encoded(w.files[w.tracks[sha]])), sha, row)], 0, st)
  }

  function PromoteOne(c: Config, w: World, sha: Sha, f: Faults, st: Stats): (o: Outcome)
    ensures o.Valid() && o.stats.errors >= st.errors
  {
    var dst := Derived(c, w.tracks, sha);
    if dst.None? then Fail([w], st) else PromoteCopy(c, w, sha, dst.value, f, st)
  }

  function DropCopy(w: World, sha: Sha, f: Faults): World {
    if sha !in w.rows || w.rows[sha].copy.None? || f.unlink then w
    else w.(files := w.files - {w.rows[sha].copy.value})
  }

  /** A failed unlink is not an error. */
  function DemoteOne(w: World, sha: Sha, f: Faults, st: Stats): (o: Outcome)
    ensures o.Valid() && o.stats.errors >= st.errors
  {
    var w1 := DropCopy(w, sha, f);
    if f.upsert then Fail([w, w1], st) else Outcome([w, w1, Upsert(w1, sha, Row(false, None))], 0, st)
  }

  function One(c: Config, w: World, job: Job, st: Stats): (o: Outcome)
    ensures o.Valid() && o.stats.errors >= st.errors
  {
    if job.dir.Promote? then PromoteOne(c, w, job.sha, job.faults, st) else DemoteOne(w, job.sha, job.faults, st)
  }

  function Turn(c: Config, w: World, job: Job, st: Stats): (o: Outcome)
    ensures o.Valid() && o.stats.errors >= st.errors
  {
    var o := One(c, w, job, st);
    if o.rc == 0 && o.stats.errors == st.errors then
      if job.dir.Promote? then o.(stats := o.stats.(added := o.stats.added + 1))
      else o.(stats := o.stats.(removed := o.stats.removed + 1))
    else o
  }

  function Run(c: Config, w: World, jobs: seq<Job>, st: Stats): (o: Outcome)
    ensures o.Valid() && o.stats.errors >= st.errors
    decreases |jobs|
  {
    if jobs == [] then Outcome([w], 0, st) else
    var first := Turn(c, w, jobs[0], st);
    var rest := Run(c, first.Final(), jobs[1..], first.stats);
    rest.(trace := first.trace + rest.trace)
  }

  // ---- originals are never touched -----------------------------------------

  /** Rows name copies under resident/ only. */
  ghost predicate CopiesApart(c: Config, w: World) {
    forall s :: s in w.rows && w.rows[s].copy.Some? ==> InTree(c.root, "resident", w.rows[s].copy.value)
  }

  ghost predicate SameFile(w: World, x: World, p: Path) {
    (p in w.files <==> p in x.files) && (p in w.files ==> w.files[p] == x.files[p])
  }

  /** Nothing outside resident/ differs, and no track has moved. */
  ghost predicate OriginalsKept(c: Config, w: World, x: World) {
    x.tracks == w.tracks && forall p :: !InTree(c.root, "resident", p) ==> SameFile(w, x, p)
  }

  /** x is w with the copy at dst in some state, and perhaps the row written. */
  ghost predicate Touched(w: World, x: World, sha: Sha, dst: Path) {
    && x.tracks == w.tracks
    && (x.files == w.files || (dst in x.files && x.files == w.files[dst := x.files[dst]]))
    && (x.rows == w.rows || x.rows == w.rows[sha := Row(true, Some(dst))])
  }

  lemma EncodeTouches(c: Config, w: World, sha: Sha, src: Path, dst: Path, f: Faults, st: Stats, x: World)
    requires x in Encode(c, w, src, dst, f, st).trace
    ensures Touched(w, x, sha, dst)
  {
  }

  lemma PromoteTouches(c: Config, w: World, sha: Sha, dst: Path, f: Faults, st: Stats, x: World)
    requires sha in w.tracks && x in PromoteCopy(c, w, sha, dst, f, st).trace
    ensures Touched(w, x, sha, dst)
  {
    var o := Encode(c, w, w.tracks[sha], dst, f, st);
    if x in o.trace { EncodeTouches(c, w, sha, w.tracks[sha], dst, f, st, x); }
  }

  lemma PromoteKeepsOriginals(c: Config, w: World, sha: Sha, f: Faults, st: Stats, x: World)
    requires CopiesApart(c, w) && x in PromoteOne(c, w, sha, f, st).trace
    ensures CopiesApart(c, x) && OriginalsKept(c, w, x)
  {
    var dst := Derived(c, w.tracks, sha);
    if dst.Some? {
      DerivedUnder(c, w.tracks, sha);
      PromoteTouches(c, w, sha, dst.value, f, st, x);
    }
  }

  lemma DemoteKeepsOriginals(c: Config, w: World, sha: Sha, f: Faults, st: Stats, x: World)
    requires CopiesApart(c, w) && x in DemoteOne(w, sha, f, st).trace
    ensures CopiesApart(c, x) && OriginalsKept(c, w, x)
  {
    var w1 := DropCopy(w, sha, f);
    assert x == w || x == w1 || x == Upsert(w1, sha, Row(false, None));
    assert CopiesApart(c, w1) && OriginalsKept(c, w, w1);
  }

  lemma TurnKeepsOriginals(c: Config, w: World, job: Job, st: Stats, x: World)
    requires CopiesApart(c, w) && x in Turn(c, w, job, st).trace
    ensures CopiesApart(c, x) && OriginalsKept(c, w, x)
  {
    if job.dir.Promote? {
      PromoteKeepsOriginals(c, w, job.sha, job.faults, st, x);
    } else {
      DemoteKeepsOriginals(c, w, job.sha, job.faults, st, x);
    }
  }

  /** In every run, whatever fails and wherever it stops. */
  lemma {:induction false} OriginalsUntouched(c: Config, w: World, jobs: seq<Job>, st: Stats, x: World)
    requires CopiesApart(c, w) && x in Run(c, w, jobs, st).trace
    ensures CopiesApart(c, x) && OriginalsKept(c, w, x)
    decreases |jobs|
  {
    if jobs == [] {
    } else {
      var first := Turn(c, w, jobs[0], st);
      if x in first.trace {
        TurnKeepsOriginals(c, w, jobs[0], st, x);
      } else {
        TurnKeepsOriginals(c, w, jobs[0], st, first.Final());
        OriginalsUntouched(c, first.Final(), jobs[1..], first.stats, x);
      }
    }
  }
}
