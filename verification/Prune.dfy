/** rotate.c: the two sweeps over resident/ after a run. Emptied album
    directories are pruned, and in transcode mode files no row refers to are
    deleted. A directory is the list readdir gives. */
module Prune {
  import opened Prelude

  type Path = seq<string>

  datatype Node = Regular(id: int) | Special | Dir(entries: seq<Entry>)
  datatype Entry = Entry(name: string, node: Node)

  /** Which system calls fail, by the path they are made on. */
  datatype Faults = Faults(open: Path -> bool, reopen: Path -> bool, stat: Path -> bool, restat: Path -> bool,
                           unlink: Path -> bool, rmdir: Path -> bool)

  predicate Dot(name: string) { name != "" && name[0] == '.' }

  predicate Sidecar(name: string) { name in ["cover.jpg", "cover.png", "folder.jpg", "folder.png"] }

  // ---- prune_dir -----------------------------------------------------------

  datatype Pass = Pass(keep: bool, rest: seq<Entry>)

  /** What becomes of one entry in the first pass: None when it is gone. */
  function FirstEntry(f: Faults, path: Path, e: Entry): (bool, Option<Entry>)
    decreases e, 2
  {
    var child := path + [e.name];
    if Dot(e.name) || f.stat(child) || e.node.Special? then (true, Some(e))
    else if e.node.Regular? then (!Sidecar(e.name), Some(e))
    else
      var r := PruneDir(f, child, e.node.entries);
      if r.None? then (false, None) else (true, Some(Entry(e.name, Dir(r.value))))
  }

  function FirstPass(f: Faults, path: Path, entries: seq<Entry>): Pass
    decreases entries, 0
  {
    if entries == [] then Pass(false, []) else
    var n := |entries| - 1;
    var p := FirstPass(f, path, entries[..n]);
    var (keep, e) := FirstEntry(f, path, entries[n]);
    Pass(p.keep || keep, if e.Some? then p.rest + [e.value] else p.rest)
  }

  function SecondPass(f: Faults, path: Path, entries: seq<Entry>): Pass {
    if entries == [] then Pass(false, []) else
    var n := |entries| - 1;
    var p, e := SecondPass(f, path, entries[..n]), entries[n];
    var child := path + [e.name];
    if Sidecar(e.name) && !f.restat(child) && e.node.Regular? && !f.unlink(child) then p
    else Pass(true, p.rest + [e])
  }

  /** What is left of a directory, None when it is removed. */
  function PruneDir(f: Faults, path: Path, entries: seq<Entry>): Option<seq<Entry>>
    decreases entries, 1
  {
    if f.open(path) then Some(entries) else
    var first := FirstPass(f, path, entries);
    if first.keep || f.reopen(path) then Some(first.rest) else
    var second := SecondPass(f, path, first.rest);
    if second.keep || f.rmdir(path) then Some(second.rest) else None
  }

  /** prune_resident_tree: resident/ itself stays. */
  function PruneTree(f: Faults, entries: seq<Entry>): seq<Entry> {
    if f.open([]) then entries else FirstPass(f, [], entries).rest
  }

  // ---- trees by path -------------------------------------------------------

  function Find(entries: seq<Entry>, name: string): (r: Option<Node>)
    ensures r.Some? ==> Entry(name, r.value) in entries
    ensures r.None? ==> forall e :: e in entries ==> e.name != name
  {
    if entries == [] then None
    else if entries[|entries| - 1].name == name then Some(entries[|entries| - 1].node)
    else
      assert entries == entries[..|entries| - 1] + [entries[|entries| - 1]];
      Find(entries[..|entries| - 1], name)
  }

  function At(entries: seq<Entry>, path: Path): Option<Node>
    requires path != []
    decreases |path|
  {
    var n := Find(entries, path[0]);
    if |path| == 1 || n.None? then n
    else if n.value.Dir? then At(n.value.entries, path[1..])
    else None
  }

  /** No two entries of a directory share a name. */
  ghost predicate Proper(entries: seq<Entry>)
  {
    && (forall i, j :: 0 <= i < j < |entries| ==> entries[i].name != entries[j].name)
    && (forall e :: e in entries && e.node.Dir? ==> Proper(e.node.entries))
  }

  /** Nothing but cover sidecars, at any depth. */
  ghost predicate Disposable(entries: seq<Entry>) {
    forall e :: e in entries ==>
      && !Dot(e.name) && (e.node.Regular? ==> Sidecar(e.name))
      && !e.node.Special? && (e.node.Dir? ==> Disposable(e.node.entries))
  }

  /** A disposable directory stands on the path, or at its end, and the walk
      reaches it. */
  ghost predicate Doomed(entries: seq<Entry>, path: Path)
    requires path != []
    decreases |path|
  {
    var n := Find(entries, path[0]);
    !Dot(path[0]) && n.Some? && n.value.Dir? &&
    (Disposable(n.value.entries) || (|path| > 1 && Doomed(n.value.entries, path[1..])))
  }

  ghost predicate Faultless(f: Faults) {
    forall p :: !f.open(p) && !f.reopen(p) && !f.stat(p) && !f.restat(p) && !f.unlink(p) && !f.rmdir(p)
  }

  // ---- what pruning does ---------------------------------------------------

  lemma {:induction false} FirstPassFind(f: Faults, path: Path, entries: seq<Entry>, name: string)
    requires Proper(entries)
    ensures var n := Find(entries, name);
            Find(FirstPass(f, path, entries).rest, name) ==
            if n.None? then None
            else
              var e := FirstEntry(f, path, Entry(name, n.value)).1;
              if e.None? then None else Some(e.value.node)
  {
    if entries == [] {
    } else {
      var n := |entries| - 1;
      var rest := FirstPass(f, path, entries[..n]).rest;
      ProperFront(entries);
      FirstPassFind(f, path, entries[..n], name);
      var e := FirstEntry(f, path, entries[n]).1;
      if e.Some? { assert (rest + [e.value])[..|rest|] == rest; }
    }
  }

  lemma ProperFront(entries: seq<Entry>)
    requires Proper(entries) && entries != []
    ensures Proper(entries[..|entries| - 1]) && Find(entries[..|entries| - 1], entries[|entries| - 1].name).None?
  {
  }

  lemma {:induction false} FirstPassKeeps(f: Faults, path: Path, entries: seq<Entry>, e: Entry)
    requires e in entries && FirstEntry(f, path, e).0
    ensures FirstPass(f, path, entries).keep
  {
    var n := |entries| - 1;
    assert entries == entries[..n] + [entries[n]];
    if e != entries[n] { FirstPassKeeps(f, path, entries[..n], e); }
  }

  lemma {:induction false} FirstPassDrops(f: Faults, path: Path, entries: seq<Entry>)
    requires forall e :: e in entries ==> !FirstEntry(f, path, e).0
    ensures var p := FirstPass(f, path, entries);
            !p.keep && forall e :: e in p.rest ==> Sidecar(e.name) && e.node.Regular?
  {
    if entries == [] {
    } else {
      var n := |entries| - 1;
      assert entries[n] in entries && forall e :: e in entries[..n] ==> e in entries;
      FirstPassDrops(f, path, entries[..n]);
    }
  }

  lemma {:induction false} SecondPassEmpties(f: Faults, path: Path, entries: seq<Entry>)
    requires Faultless(f) && forall e :: e in entries ==> Sidecar(e.name) && e.node.Regular?
    ensures SecondPass(f, path, entries) == Pass(false, [])
  {
    if entries == [] {
    } else {
      var n := |entries| - 1;
      assert entries[n] in entries && forall e :: e in entries[..n] ==> e in entries;
      SecondPassEmpties(f, path, entries[..n]);
    }
  }

  /** Without faults a directory goes exactly when nothing but sidecars is in it. */
  lemma {:induction false} RemovedExactly(f: Faults, path: Path, entries: seq<Entry>)
    requires Faultless(f)
    ensures PruneDir(f, path, entries) == if Disposable(entries) then None else Some(FirstPass(f, path, entries).rest)
    decreases entries
  {
    forall e | e in entries && e.node.Dir?
      ensures PruneDir(f, path + [e.name], e.node.entries).None? <==> Disposable(e.node.entries)
    {
      RemovedExactly(f, path + [e.name], e.node.entries);
    }
    if Disposable(entries) {
      FirstPassDrops(f, path, entries);
      SecondPassEmpties(f, path, FirstPass(f, path, entries).rest);
    } else {
      var e :| e in entries && FirstEntry(f, path, e).0;
      FirstPassKeeps(f, path, entries, e);
    }
  }

  /** Without faults, what is left is what no disposable directory held. */
  lemma {:induction false} PrunedExactly(f: Faults, at: Path, entries: seq<Entry>, path: Path)
    requires Faultless(f) && Proper(entries) && path != []
    ensures var was, now := At(entries, path), At(FirstPass(f, at, entries).rest, path);
            && (now.Some? <==> was.Some? && !Doomed(entries, path))
            && (now.Some? && !was.value.Dir? ==> now == was)
    decreases |path|
  {
    FirstPassFind(f, at, entries, path[0]);
    var n := Find(entries, path[0]);
    if n.Some? && n.value.Dir? && !Dot(path[0]) {
      var sub := n.value.entries;
      RemovedExactly(f, at + [path[0]], sub);
      if |path| > 1 { PrunedExactly(f, at + [path[0]], sub, path[1..]); }
    }
  }

  /** Whatever fails, only sidecars and directories can go. */
  lemma {:induction false} OnlySidecarsGo(f: Faults, at: Path, entries: seq<Entry>, path: Path)
    requires Proper(entries) && path != []
    requires var n := At(entries, path); n.Some? && !n.value.Dir? && !(n.value.Regular? && Sidecar(path[|path| - 1]))
    ensures At(FirstPass(f, at, entries).rest, path) == At(entries, path)
    ensures var r := PruneDir(f, at, entries); r.Some? && At(r.value, path) == At(entries, path)
    decreases |path|
  {
    FirstPassFind(f, at, entries, path[0]);
    var n := Find(entries, path[0]).value;
    if |path| > 1 {
      OnlySidecarsGo(f, at + [path[0]], n.entries, path[1..]);
    }
    FirstPassKeeps(f, at, entries, Entry(path[0], n));
  }

  lemma {:induction false} SecondPassFind(f: Faults, path: Path, entries: seq<Entry>, name: string)
    requires f.restat(path + [name]) || f.unlink(path + [name])
    ensures Find(SecondPass(f, path, entries).rest, name) == Find(entries, name)
    ensures Find(entries, name).Some? ==> SecondPass(f, path, entries).keep
  {
    if entries == [] {
    } else {
      var n := |entries| - 1;
      var rest := SecondPass(f, path, entries[..n]).rest;
      SecondPassFind(f, path, entries[..n], name);
      assert (rest + [entries[n]])[..|rest|] == rest;
    }
  }

  /** On the way to the file, or at it, a call of the prune fails. */
  predicate Held(f: Faults, at: Path, path: Path)
    requires path != []
    decreases |path|
  {
    var child := at + [path[0]];
    || f.stat(child)
    || if |path| == 1 then f.restat(child) || f.unlink(child)
       else f.open(child) || (|path| == 2 && f.reopen(child)) || Held(f, child, path[1..])
  }

  /** It is then still there. */
  lemma {:induction false} HeldStays(f: Faults, at: Path, entries: seq<Entry>, path: Path)
    requires Proper(entries) && path != [] && At(entries, path).Some? && !At(entries, path).value.Dir?
    ensures |path| == 1 || Held(f, at, path) ==> At(FirstPass(f, at, entries).rest, path) == At(entries, path)
    ensures var r := PruneDir(f, at, entries);
            f.open(at) || (|path| == 1 && f.reopen(at)) || Held(f, at, path) ==>
              r.Some? && At(r.value, path) == At(entries, path)
    decreases |path|
  {
    var n, child := Find(entries, path[0]).value, at + [path[0]];
    FirstPassFind(f, at, entries, path[0]);
    if |path| > 1 { HeldStays(f, child, n.entries, path[1..]); }
    if Held(f, at, path) {
      if |path| > 1 || f.stat(child) {
        FirstPassKeeps(f, at, entries, Entry(path[0], n));
      } else {
        SecondPassFind(f, at, FirstPass(f, at, entries).rest, path[0]);
      }
    }
  }

  method FirstPassLoop(f: Faults, path: Path, entries: seq<Entry>) returns (p: Pass)
    ensures p == FirstPass(f, path, entries)
    decreases entries, 0
  {
    var keep, rest := false, [];
    for i := 0 to |entries|
      invariant Pass(keep, rest) == FirstPass(f, path, entries[..i])
    {
      var e := entries[i];
      assert entries[..i + 1][..i] == entries[..i];
      if Dot(e.name) || f.stat(path + [e.name]) {
        keep, rest := true, rest + [e];
      } else if e.node.Dir? {
        var r := PruneDirAt(f, path + [e.name], e.node.entries);
        if r.Some? { keep, rest := true, rest + [Entry(e.name, Dir(r.value))]; }
      } else {
        if !(e.node.Regular? && Sidecar(e.name)) { keep := true; }
        rest := rest + [e];
      }
    }
    assert entries[..|entries|] == entries;
    return Pass(keep, rest);
  }

  method SecondPassLoop(f: Faults, path: Path, entries: seq<Entry>) returns (p: Pass)
    ensures p == SecondPass(f, path, entries)
  {
    var keep, rest := false, [];
    for i := 0 to |entries|
      invariant Pass(keep, rest) == SecondPass(f, path, entries[..i])
    {
      var e := entries[i];
      var child := path + [e.name];
      assert entries[..i + 1][..i] == entries[..i];
      if !Sidecar(e.name) || f.restat(child) || !e.node.Regular? || f.unlink(child) {
        keep, rest := true, rest + [e];
      }
    }
    assert entries[..|entries|] == entries;
    return Pass(keep, rest);
  }

  method PruneDirAt(f: Faults, path: Path, entries: seq<Entry>) returns (r: Option<seq<Entry>>)
    ensures r == PruneDir(f, path, entries)
    decreases entries, 1
  {
    if f.open(path) { return Some(entries); }
    var first := FirstPassLoop(f, path, entries);
    if first.keep || f.reopen(path) { return Some(first.rest); }
    var second := SecondPassLoop(f, path, first.rest);
    if second.keep || f.rmdir(path) { return Some(second.rest); }
    return None;
  }

  /** prune_resident_tree. */
  method PruneResidentTree(f: Faults, entries: seq<Entry>) returns (rest: seq<Entry>)
    ensures rest == PruneTree(f, entries)
  {
    if f.open([]) { return entries; }
    rest := [];
    for i := 0 to |entries|
      invariant rest == FirstPass(f, [], entries[..i]).rest
    {
      var e := entries[i];
      assert entries[..i + 1][..i] == entries[..i];
      assert [] + [e.name] == [e.name];
      if !Dot(e.name) && !f.stat([e.name]) && e.node.Dir? {
        var r := PruneDirAt(f, [e.name], e.node.entries);
        if r.Some? { rest := rest + [Entry(e.name, Dir(r.value))]; }
      } else {
        rest := rest + [e];
      }
    }
    assert entries[..|entries|] == entries;
  }

  // ---- remove_orphans_in ---------------------------------------------------

  /** From the last dot on. */
  function Extension(name: string): string {
    if name == "" then "" else
    var n := |name| - 1;
    if name[n] == '.' then name[n..]
    else
      var e := Extension(name[..n]);
      if e == "" then "" else e + [name[n]]
  }

  predicate TranscodeName(name: string) { Extension(name) == ".opus" || Extension(name) == ".m4a" }

  function SweepEntry(f: Faults, refs: set<int>, path: Path, e: Entry): Option<Entry>
    decreases e, 1
  {
    var child := path + [e.name];
    if Dot(e.name) || f.stat(child) || e.node.Special? then Some(e)
    else if e.node.Dir? then
      if f.open(child) then Some(e) else Some(Entry(e.name, Dir(Sweep(f, refs, child, e.node.entries))))
    else if TranscodeName(e.name) && e.node.id !in refs && !f.unlink(child) then None
    else Some(e)
  }

  /** What the orphan sweep leaves of a directory's entries. */
  function Sweep(f: Faults, refs: set<int>, path: Path, entries: seq<Entry>): seq<Entry>
    decreases entries, 0
  {
    if entries == [] then [] else
    var n := |entries| - 1;
    var rest := Sweep(f, refs, path, entries[..n]);
    var e := SweepEntry(f, refs, path, entries[n]);
    if e.Some? then rest + [e.value] else rest
  }

  lemma {:induction false} SweepFind(f: Faults, refs: set<int>, path: Path, entries: seq<Entry>, name: string)
    requires Proper(entries)
    ensures var n := Find(entries, name);
            Find(Sweep(f, refs, path, entries), name) ==
            if n.None? then None
            else
              var e := SweepEntry(f, refs, path, Entry(name, n.value));
              if e.None? then None else Some(e.value.node)
  {
    if entries == [] {
    } else {
      var n := |entries| - 1;
      var rest := Sweep(f, refs, path, entries[..n]);
      ProperFront(entries);
      SweepFind(f, refs, path, entries[..n], name);
      var e := SweepEntry(f, refs, path, entries[n]);
      if e.Some? { assert (rest + [e.value])[..|rest|] == rest; }
    }
  }

  /** No dot entry on the way. */
  predicate Visible(path: Path) { path == [] || (!Dot(path[0]) && Visible(path[1..])) }

  /** A transcode no row refers to. */
  ghost predicate Orphan(entries: seq<Entry>, refs: set<int>, path: Path)
    requires path != []
  {
    var n := At(entries, path);
    Visible(path) && n.Some? && n.value.Regular? && n.value.id !in refs && TranscodeName(path[|path| - 1])
  }

  lemma SweptEntry(f: Faults, refs: set<int>, at: Path, e: Entry)
    ensures !e.node.Dir? && !(!Dot(e.name) && e.node.Regular? && e.node.id !in refs && TranscodeName(e.name)) ==>
              SweepEntry(f, refs, at, e) == Some(e)
    ensures var r := SweepEntry(f, refs, at, e);
            && (r.Some? ==> r.value.name == e.name)
            && (e.node.Dir? ==>
                  r == Some(e) || r == Some(Entry(e.name, Dir(Sweep(f, refs, at + [e.name], e.node.entries)))))
            && (r.Some? && !e.node.Dir? ==> r == Some(e))
  {
  }

  /** Whatever fails, the sweep leaves every file that is no orphan and adds none. */
  lemma {:induction false} SweepSpares(f: Faults, refs: set<int>, at: Path, entries: seq<Entry>, path: Path)
    requires Proper(entries) && path != []
    ensures At(Sweep(f, refs, at, entries), path).Some? ==> At(entries, path).Some?
    ensures At(entries, path).Some? && !At(entries, path).value.Dir? && !Orphan(entries, refs, path) ==>
      At(Sweep(f, refs, at, entries), path) == At(entries, path)
    decreases |path|
  {
    SweepFind(f, refs, at, entries, path[0]);
    var n := Find(entries, path[0]);
    if n.Some? {
      SweptEntry(f, refs, at, Entry(path[0], n.value));
      if |path| == 1 {
        assert Visible(path) <==> !Dot(path[0]);
      } else if n.value.Dir? {
        assert Visible(path) <==> !Dot(path[0]) && Visible(path[1..]);
        assert path[1..][|path[1..]| - 1] == path[|path| - 1];
        if Dot(path[0]) {
          assert SweepEntry(f, refs, at, Entry(path[0], n.value)) == Some(Entry(path[0], n.value));
        } else {
          SweepSpares(f, refs, at + [path[0]], n.value.entries, path[1..]);
        }
      }
    }
  }

  /** No call on the way to the file fails, nor its unlink. */
  predicate Reaches(f: Faults, at: Path, path: Path)
    requires path != []
    decreases |path|
  {
    var child := at + [path[0]];
    !f.stat(child) && if |path| == 1 then !f.unlink(child) else !f.open(child) && Reaches(f, child, path[1..])
  }

  /** It deletes exactly the orphans it reaches. */
  lemma {:induction false} SweepTakes(f: Faults, refs: set<int>, at: Path, entries: seq<Entry>, path: Path)
    requires Proper(entries) && path != [] && At(entries, path).Some? && !At(entries, path).value.Dir?
    ensures At(Sweep(f, refs, at, entries), path).None? <==> Orphan(entries, refs, path) && Reaches(f, at, path)
    decreases |path|
  {
    SweepFind(f, refs, at, entries, path[0]);
    SweepSpares(f, refs, at, entries, path);
    if |path| == 1 {
      assert Visible(path) <==> !Dot(path[0]);
    } else {
      assert path[1..][|path[1..]| - 1] == path[|path| - 1];
      SweepTakes(f, refs, at + [path[0]], Find(entries, path[0]).value.entries, path[1..]);
    }
  }

  lemma {:induction false} SweptProper(f: Faults, refs: set<int>, at: Path, entries: seq<Entry>)
    requires Proper(entries)
    ensures Proper(Sweep(f, refs, at, entries))
    ensures forall e :: e in Sweep(f, refs, at, entries) ==> exists o :: o in entries && o.name == e.name
    decreases entries
  {
    if entries == [] {
    } else {
      var n := |entries| - 1;
      SweptProper(f, refs, at, entries[..n]);
      if entries[n].node.Dir? { SweptProper(f, refs, at + [entries[n].name], entries[n].node.entries); }
    }
  }

  /** remove_orphan_transcodes, from resident/ down. */
  function SweepTree(f: Faults, refs: set<int>, entries: seq<Entry>): seq<Entry> {
    if f.open([]) then entries else Sweep(f, refs, [], entries)
  }

  /** A file a row refers to survives the sweep and the prune, whatever fails. */
  lemma ReferencedSurvives(f: Faults, g: Faults, refs: set<int>, entries: seq<Entry>, path: Path)
    requires Proper(entries) && path != [] && !Sidecar(path[|path| - 1])
    requires var n := At(entries, path); n.Some? && n.value.Regular? && n.value.id in refs
    ensures At(PruneTree(g, SweepTree(f, refs, entries)), path) == At(entries, path)
  {
    SweepSpares(f, refs, [], entries, path);
    SweptProper(f, refs, [], entries);
    OnlySidecarsGo(g, [], SweepTree(f, refs, entries), path);
  }

  /** Some component of the path begins with a dot. */
  predicate Hidden(path: Path) {
    exists k :: 0 <= k < |path| && path[k] != "" && path[k][0] == '.'
  }

  lemma HiddenRest(path: Path)
    requires path != [] && Hidden(path) && !(path[0] != "" && path[0][0] == '.')
    ensures |path| > 1 && Hidden(path[1..])
  {
    var k :| 0 <= k < |path| && path[k] != "" && path[k][0] == '.';
    assert path[1..][k - 1] == path[k];
  }

  lemma {:induction false} HiddenStays(f: Faults, at: Path, entries: seq<Entry>, path: Path)
    requires Proper(entries) && path != [] && Hidden(path) && At(entries, path).Some?
    ensures At(FirstPass(f, at, entries).rest, path) == At(entries, path)
    ensures var r := PruneDir(f, at, entries); r.Some? && At(r.value, path) == At(entries, path)
    decreases |path|
  {
    FirstPassFind(f, at, entries, path[0]);
    var n := Find(entries, path[0]).value;
    if !Dot(path[0]) {
      HiddenRest(path);
      HiddenStays(f, at + [path[0]], n.entries, path[1..]);
    }
    FirstPassKeeps(f, at, entries, Entry(path[0], n));
  }

  lemma {:induction false} HiddenInvisible(path: Path)
    requires Hidden(path)
    ensures !Visible(path)
  {
    if !Dot(path[0]) {
      HiddenRest(path);
      HiddenInvisible(path[1..]);
    }
  }

  /** No file goes whose name, or that of a directory it is in, begins with a
      dot: the .nomedia file, and Syncthing's own. */
  lemma HiddenSurvives(f: Faults, g: Faults, refs: set<int>, entries: seq<Entry>, path: Path)
    requires Proper(entries) && path != [] && Hidden(path)
    requires At(entries, path).Some? && !At(entries, path).value.Dir?
    ensures At(PruneTree(g, SweepTree(f, refs, entries)), path) == At(entries, path)
  {
    HiddenInvisible(path);
    SweepSpares(f, refs, [], entries, path);
    SweptProper(f, refs, [], entries);
    HiddenStays(g, [], SweepTree(f, refs, entries), path);
  }

  predicate EndsIn(name: string, suffix: string) {
    |suffix| <= |name| && name[|name| - |suffix|..] == suffix
  }

  lemma SidecarIsPicture(name: string)
    requires Sidecar(name)
    ensures EndsIn(name, ".jpg") || EndsIn(name, ".png")
  {
    assert "cover.jpg"[5..] == ".jpg" && "cover.png"[5..] == ".png";
    assert "folder.jpg"[6..] == ".jpg" && "folder.png"[6..] == ".png";
  }

  lemma {:induction false} ExtensionIs(name: string, dot: nat)
    requires dot < |name| && name[dot] == '.' && '.' !in name[dot + 1..]
    ensures Extension(name) == name[dot..]
  {
    var n := |name| - 1;
    if dot < n {
      assert name[dot + 1..][n - dot - 1] == name[n];
      assert name[..n][dot + 1..] == name[dot + 1..][..n - dot - 1];
      ExtensionIs(name[..n], dot);
      assert name[..n][dot..] + [name[n]] == name[dot..];
    }
  }

  lemma {:induction false} ExtensionEnds(name: string)
    ensures EndsIn(name, Extension(name))
  {
    if name == "" {
    } else {
      var n := |name| - 1;
      if name[n] != '.' && Extension(name[..n]) != "" {
        ExtensionEnds(name[..n]);
        var e := Extension(name[..n]);
        assert name[|name| - |e| - 1..] == name[..n][n - |e|..] + [name[n]];
      }
    }
  }

  /** What the sweep takes for a transcode is what is named so. */
  lemma TranscodeNameIs(name: string)
    ensures TranscodeName(name) <==> EndsIn(name, ".opus") || EndsIn(name, ".m4a")
  {
    ExtensionEnds(name);
    if EndsIn(name, ".opus") {
      assert name[|name| - 4..] == name[|name| - 5..][1..] == "opus";
      ExtensionIs(name, |name| - 5);
    }
    if EndsIn(name, ".m4a") {
      assert name[|name| - 3..] == name[|name| - 4..][1..] == "m4a";
      ExtensionIs(name, |name| - 4);
    }
  }

  /** No file goes in the prune that is not a .jpg or .png, and none in both
      sweeps that is not a .opus or .m4a either, whatever fails. */
  lemma OtherFilesSurvive(f: Faults, g: Faults, refs: set<int>, entries: seq<Entry>, path: Path)
    requires Proper(entries) && path != []
    requires var n, name := At(entries, path), path[|path| - 1];
             n.Some? && n.value.Regular? && !EndsIn(name, ".jpg") && !EndsIn(name, ".png")
    ensures At(PruneTree(g, entries), path) == At(entries, path)
    ensures !EndsIn(path[|path| - 1], ".opus") && !EndsIn(path[|path| - 1], ".m4a") ==>
              At(PruneTree(g, SweepTree(f, refs, entries)), path) == At(entries, path)
  {
    var name := path[|path| - 1];
    if Sidecar(name) { SidecarIsPicture(name); }
    OnlySidecarsGo(g, [], entries, path);
    TranscodeNameIs(name);
    if !TranscodeName(name) {
      SweepSpares(f, refs, [], entries, path);
      SweptProper(f, refs, [], entries);
      OnlySidecarsGo(g, [], SweepTree(f, refs, entries), path);
    }
  }

  lemma LastTwo(name: string, suffix: string)
    requires EndsIn(name, suffix) && |suffix| > 1
    ensures |name| > 1 && name[|name| - 2..] == suffix[|suffix| - 2..]
  {
    assert name[|name| - |suffix|..][|suffix| - 2..] == name[|name| - 2..];
  }

  lemma OtherEnding(name: string, suffix: string, other: string)
    requires EndsIn(name, suffix) && |suffix| > 1 && |other| > 1
    requires suffix[|suffix| - 2..] != other[|other| - 2..]
    ensures !EndsIn(name, other)
  {
    LastTwo(name, suffix);
    if EndsIn(name, other) { LastTwo(name, other); }
  }

  /** So no audio file goes in the prune, and no .flac, .mp3 or .wav at all. */
  lemma AudioSurvives(f: Faults, g: Faults, refs: set<int>, entries: seq<Entry>, path: Path, suffix: string)
    requires Proper(entries) && path != [] && EndsIn(path[|path| - 1], suffix)
    requires suffix in {".flac", ".mp3", ".wav", ".ogg", ".aac", ".opus", ".m4a"}
    requires At(entries, path).Some? && At(entries, path).value.Regular?
    ensures At(PruneTree(g, entries), path) == At(entries, path)
    ensures suffix in {".flac", ".mp3", ".wav"} ==>
              At(PruneTree(g, SweepTree(f, refs, entries)), path) == At(entries, path)
  {
    var name := path[|path| - 1];
    OtherEnding(name, suffix, ".jpg");
    OtherEnding(name, suffix, ".png");
    if suffix in {".flac", ".mp3", ".wav"} {
      OtherEnding(name, suffix, ".opus");
      OtherEnding(name, suffix, ".m4a");
    }
    OtherFilesSurvive(f, g, refs, entries, path);
  }

  /** The entries other than directories, at every depth. */
  function Leaves(entries: seq<Entry>): nat {
    if entries == [] then 0 else
    var n := entries[|entries| - 1].node;
    Leaves(entries[..|entries| - 1]) + if n.Dir? then Leaves(n.entries) else 1
  }

  lemma LeavesSnoc(entries: seq<Entry>, e: Entry)
    ensures Leaves(entries + [e]) == Leaves(entries) + if e.node.Dir? then Leaves(e.node.entries) else 1
  {
    assert (entries + [e])[..|entries|] == entries;
  }

  method RemoveOrphansIn(f: Faults, refs: set<int>, path: Path, entries: seq<Entry>)
    returns (rest: seq<Entry>, removed: int)
    ensures rest == (if f.open(path) then entries else Sweep(f, refs, path, entries))
    ensures removed == Leaves(entries) - Leaves(rest)
    decreases entries
  {
    if f.open(path) { return entries, 0; }
    rest, removed := [], 0;
    for i := 0 to |entries|
      invariant rest == Sweep(f, refs, path, entries[..i])
      invariant removed == Leaves(entries[..i]) - Leaves(rest)
    {
      var e := entries[i];
      assert entries[..i + 1][..i] == entries[..i];
      if Dot(e.name) || f.stat(path + [e.name]) || e.node.Special? {
        LeavesSnoc(rest, e);
        rest := rest + [e];
      } else if e.node.Dir? {
        var sub, n := RemoveOrphansIn(f, refs, path + [e.name], e.node.entries);
        LeavesSnoc(rest, Entry(e.name, Dir(sub)));
        rest, removed := rest + [Entry(e.name, Dir(sub))], removed + n;
      } else if TranscodeName(e.name) && e.node.id !in refs && !f.unlink(path + [e.name]) {
        removed := removed + 1;
      } else {
        LeavesSnoc(rest, e);
        rest := rest + [e];
      }
    }
    assert entries[..|entries|] == entries;
  }
}
