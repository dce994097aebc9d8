/** diff.c: the three-way merge of the stored manifest with a resolved one, and
    the comma-separated bucket lists it compares. */
module ManifestDiff {
  import opened Prelude
  import opened Text

  type Sha = string

  // ---- buckets_csv ---------------------------------------------------------

  function Join(names: seq<string>): string {
    if names == [] then ""
    else if |names| == 1 then names[0]
    else names[0] + "," + Join(names[1..])
  }

  /** The first comma, or the end. */
  function CommaAt(s: string): (i: nat)
    ensures i <= |s| && ',' !in s[..i] && (i < |s| ==> s[i] == ',')
  {
    if s == [] || s[0] == ',' then 0 else
    var i := CommaAt(s[1..]) + 1;
    assert s[..i] == [s[0]] + s[1..][..i - 1];
    i
  }

  function Parts(s: string): (r: seq<string>)
    ensures r != [] && forall x :: x in r ==> ',' !in x
    decreases |s|
  {
    var i := CommaAt(s);
    if i == |s| then assert s[..i] == s; [s] else [s[..i]] + Parts(s[i + 1..])
  }

  function Split(csv: string): seq<string> { if csv == "" then [] else Parts(csv) }

  lemma CommaAtIs(s: string, i: nat)
    requires i <= |s| && ',' !in s[..i] && (i < |s| ==> s[i] == ',')
    ensures CommaAt(s) == i
  {
    var j := CommaAt(s);
    forall k | 0 <= k < i ensures s[k] != ',' { assert s[..i][k] == s[k]; }
    forall k | 0 <= k < j ensures s[k] != ',' { assert s[..j][k] == s[k]; }
  }

  lemma PartsStep(csv: string, start: nat, p: nat)
    requires start <= p < |csv| && csv[p] == ',' && ',' !in csv[start..p]
    ensures Parts(csv[start..]) == [csv[start..p]] + Parts(csv[p + 1..])
  {
    var s := csv[start..];
    assert s[..p - start] == csv[start..p] && s[p - start + 1..] == csv[p + 1..];
    CommaAtIs(s, p - start);
  }

  lemma PartsEnd(s: string)
    requires ',' !in s
    ensures Parts(s) == [s]
  {
    assert s[..|s|] == s;
    CommaAtIs(s, |s|);
  }

  lemma {:induction false} PartsOfJoin(names: seq<string>)
    requires names != [] && forall x :: x in names ==> ',' !in x
    ensures Parts(Join(names)) == names
  {
    var s, first := Join(names), names[0];
    if |names| == 1 {
      assert s[..|s|] == s;
      CommaAtIs(s, |s|);
    } else {
      assert s == first + "," + Join(names[1..]);
      assert s[..|first|] == first && s[|first|] == ',' && s[|first| + 1..] == Join(names[1..]);
      CommaAtIs(s, |first|);
      PartsOfJoin(names[1..]);
      assert [first] + names[1..] == names;
    }
  }

  /** Splitting undoes joining exactly for comma-free names, other than the
      list of one empty name. */
  lemma SplitUndoesJoin(names: seq<string>)
    ensures Split(Join(names)) == names <==> (forall x :: x in names ==> ',' !in x) && names != [""]
  {
    if (forall x :: x in names ==> ',' !in x) && names != [""] && names != [] {
      PartsOfJoin(names);
      if |names| == 1 { assert names[0] != "" by { assert names == [names[0]]; } }
    }
  }

  method ToCsv(names: seq<string>) returns (csv: string)
    ensures csv == Join(names)
  {
    csv := "";
    for i := 0 to |names|
      invariant i > 0 ==> csv + (if i < |names| then "," + Join(names[i..]) else "") == Join(names)
      invariant i == 0 ==> csv == ""
    {
      if i > 0 { csv := csv + ","; }
      csv := csv + names[i];
      assert names[i..][1..] == names[i + 1..];
    }
  }

  /** The parts up to start are done and csv[start..p] holds no comma. */
  ghost predicate SplitSoFar(csv: string, parts: seq<string>, start: nat, p: nat) {
    start <= p <= |csv| && ',' !in csv[start..p] && parts + Parts(csv[start..]) == Parts(csv)
  }

  lemma SplitStep(csv: string, parts: seq<string>, start: nat, p: nat)
    requires SplitSoFar(csv, parts, start, p) && p < |csv|
    ensures csv[p] == ',' ==> SplitSoFar(csv, parts + [csv[start..p]], p + 1, p + 1)
    ensures csv[p] != ',' ==> SplitSoFar(csv, parts, start, p + 1)
  {
    if csv[p] == ',' {
      PartsStep(csv, start, p);
      assert parts + ([csv[start..p]] + Parts(csv[p + 1..])) == parts + [csv[start..p]] + Parts(csv[p + 1..]);
    } else {
      assert csv[start..p + 1] == csv[start..p] + [csv[p]];
    }
  }

  lemma SplitDone(csv: string, parts: seq<string>, start: nat)
    requires SplitSoFar(csv, parts, start, |csv|)
    ensures parts + [csv[start..]] == Parts(csv)
  {
    assert csv[start..|csv|] == csv[start..];
    PartsEnd(csv[start..]);
  }

  lemma SplitStart(csv: string)
    ensures SplitSoFar(csv, [], 0, 0)
  {
    assert csv[0..] == csv;
  }

  method SplitCsv(csv: string) returns (parts: seq<string>)
    ensures parts == Split(csv)
  {
    if csv == "" { return []; }
    parts := [];
    var start := 0;
    SplitStart(csv);
    for p := 0 to |csv|
      invariant 0 <= start && SplitSoFar(csv, parts, start, p)
    {
      SplitStep(csv, parts, start, p);
      if csv[p] == ',' {
        parts := parts + [csv[start..p]];
        start := p + 1;
      }
    }
    SplitDone(csv, parts, start);
    parts := parts + [csv[start..]];
  }

  /** set_diff: the members of a that b lacks, in order. */
  function Minus(a: seq<string>, b: seq<string>): (r: seq<string>)
    ensures forall x :: x in r <==> x in a && x !in b
  {
    if a == [] then [] else
    var front, last := a[..|a| - 1], a[|a| - 1];
    assert a == front + [last];
    Minus(front, b) + if last in b then [] else [last]
  }

  // ---- the merge -----------------------------------------------------------

  datatype Stored = Stored(sha: Sha, csv: string, size: int)
  datatype Track = Track(sha: Sha, buckets: seq<string>, size: int)
  datatype Shift = Shift(sha: Sha, gained: seq<string>, lost: seq<string>)
  datatype Diff = Diff(added: seq<Track>, removed: seq<Stored>, shifted: seq<Shift>, addedBytes: int, removedBytes: int)

  ghost predicate StoredSorted(s: seq<Stored>) {
    forall i, j {:trigger Less(s[i].sha, s[j].sha)} :: 0 <= i < j < |s| ==> Less(s[i].sha, s[j].sha)
  }

  ghost predicate TracksSorted(s: seq<Track>) {
    forall i, j {:trigger Less(s[i].sha, s[j].sha)} :: 0 <= i < j < |s| ==> Less(s[i].sha, s[j].sha)
  }

  /** The row of a sha. */
  function OldRow(s: seq<Stored>, sha: Sha): (r: Option<Stored>)
    ensures r.Some? ==> r.value in s && r.value.sha == sha
    ensures r.None? ==> forall p :: p in s ==> p.sha != sha
  {
    if s == [] then None
    else if s[|s| - 1].sha == sha then Some(s[|s| - 1])
    else
      assert s == s[..|s| - 1] + [s[|s| - 1]];
      OldRow(s[..|s| - 1], sha)
  }

  function NewRow(s: seq<Track>, sha: Sha): (r: Option<Track>)
    ensures r.Some? ==> r.value in s && r.value.sha == sha
    ensures r.None? ==> forall n :: n in s ==> n.sha != sha
  {
    if s == [] then None
    else if s[|s| - 1].sha == sha then Some(s[|s| - 1])
    else
      assert s == s[..|s| - 1] + [s[|s| - 1]];
      NewRow(s[..|s| - 1], sha)
  }

  lemma OldRowAt(s: seq<Stored>, i: nat)
    requires StoredSorted(s) && i < |s|
    ensures OldRow(s, s[i].sha) == Some(s[i])
  {
    LessIrreflexive(s[i].sha);
  }

  lemma NewRowAt(s: seq<Track>, i: nat)
    requires TracksSorted(s) && i < |s|
    ensures NewRow(s, s[i].sha) == Some(s[i])
  {
    LessIrreflexive(s[i].sha);
  }

  function ShiftOf(p: Stored, n: Track): Shift {
    Shift(n.sha, Minus(n.buckets, Split(p.csv)), Minus(Split(p.csv), n.buckets))
  }

  /** p's bucket list was stored, n's is the new one. */
  function ShiftBetween(p: Option<Stored>, n: Option<Track>): Option<Shift> {
    if p.Some? && n.Some? && p.value.csv != Join(n.value.buckets) then Some(ShiftOf(p.value, n.value)) else None
  }

  /** What the first n tracks of next contribute to the diff against all of
      prev: those it lacks, and those whose bucket list differs. */
  function AddedUpTo(prev: seq<Stored>, next: seq<Track>, n: nat): seq<Track>
    requires n <= |next|
  {
    if n == 0 then [] else
    var r := AddedUpTo(prev, next, n - 1);
    if OldRow(prev, next[n - 1].sha).None? then r + [next[n - 1]] else r
  }

  function ShiftedUpTo(prev: seq<Stored>, next: seq<Track>, n: nat): seq<Shift>
    requires n <= |next|
  {
    if n == 0 then [] else
    var r, x := ShiftedUpTo(prev, next, n - 1), ShiftBetween(OldRow(prev, next[n - 1].sha), Some(next[n - 1]));
    if x.Some? then r + [x.value] else r
  }

  /** The tracks among the first n of prev that next lacks. */
  function RemovedUpTo(prev: seq<Stored>, next: seq<Track>, n: nat): seq<Stored>
    requires n <= |prev|
  {
    if n == 0 then [] else
    var r := RemovedUpTo(prev, next, n - 1);
    if NewRow(next, prev[n - 1].sha).None? then r + [prev[n - 1]] else r
  }

  function Added(prev: seq<Stored>, next: seq<Track>): seq<Track> { AddedUpTo(prev, next, |next|) }

  function Shifted(prev: seq<Stored>, next: seq<Track>): seq<Shift> { ShiftedUpTo(prev, next, |next|) }

  function Removed(prev: seq<Stored>, next: seq<Track>): seq<Stored> { RemovedUpTo(prev, next, |prev|) }

  function StoredBytes(s: seq<Stored>): int { if s == [] then 0 else StoredBytes(s[..|s| - 1]) + s[|s| - 1].size }
  function TrackBytes(s: seq<Track>): int { if s == [] then 0 else TrackBytes(s[..|s| - 1]) + s[|s| - 1].size }

  /** Both are sums. */
  lemma {:induction false} BytesAdd(a: seq<Track>, b: seq<Track>, t: Track)
    ensures TrackBytes([]) == 0 && TrackBytes([t]) == t.size && TrackBytes(a + b) == TrackBytes(a) + TrackBytes(b)
  {
    if b == [] {
      assert a + b == a;
    } else {
      BytesAdd(a, b[..|b| - 1], t);
      assert (a + b)[..|a + b| - 1] == a + b[..|b| - 1];
    }
  }

  lemma {:induction false} StoredBytesAdd(a: seq<Stored>, b: seq<Stored>, t: Stored)
    ensures StoredBytes([]) == 0 && StoredBytes([t]) == t.size && StoredBytes(a + b) == StoredBytes(a) + StoredBytes(b)
  {
    if b == [] {
      assert a + b == a;
    } else {
      StoredBytesAdd(a, b[..|b| - 1], t);
      assert (a + b)[..|a + b| - 1] == a + b[..|b| - 1];
    }
  }

  /** d is the diff of prev[..pi] and next[..ni], each against the whole other list. */
  ghost predicate DiffSoFar(prev: seq<Stored>, next: seq<Track>, pi: nat, ni: nat, d: Diff) {
    && pi <= |prev| && ni <= |next|
    && d.added == AddedUpTo(prev, next, ni) && d.shifted == ShiftedUpTo(prev, next, ni)
    && d.removed == RemovedUpTo(prev, next, pi)
    && |d.added| - |d.removed| == ni - pi
    && d.addedBytes == TrackBytes(d.added) && d.removedBytes == StoredBytes(d.removed)
  }

  /** Nothing dealt with on one side can meet what is left of the other. */
  ghost predicate Aligned(prev: seq<Stored>, next: seq<Track>, pi: nat, ni: nat) {
    && pi <= |prev| && ni <= |next|
    && (forall i, j {:trigger Less(prev[i].sha, next[j].sha)} ::
        0 <= i < pi && ni <= j < |next| ==> Less(prev[i].sha, next[j].sha))
    && (forall i, j {:trigger Less(next[j].sha, prev[i].sha)} ::
        pi <= i < |prev| && 0 <= j < ni ==> Less(next[j].sha, prev[i].sha))
  }

  lemma AlignedLow(prev: seq<Stored>, next: seq<Track>, pi: nat, ni: nat)
    requires StoredSorted(prev) && TracksSorted(next) && Aligned(prev, next, pi, ni) && pi < |prev|
    requires ni < |next| ==> Less(prev[pi].sha, next[ni].sha)
    ensures Aligned(prev, next, pi + 1, ni)
  {
    forall j | ni <= j < |next| ensures Less(prev[pi].sha, next[j].sha) {
      if ni < j { LessTransitive(prev[pi].sha, next[ni].sha, next[j].sha); }
    }
  }

  lemma AlignedHigh(prev: seq<Stored>, next: seq<Track>, pi: nat, ni: nat)
    requires StoredSorted(prev) && TracksSorted(next) && Aligned(prev, next, pi, ni) && ni < |next|
    requires pi < |prev| ==> Less(next[ni].sha, prev[pi].sha)
    ensures Aligned(prev, next, pi, ni + 1)
  {
    forall i | pi <= i < |prev| ensures Less(next[ni].sha, prev[i].sha) {
      if pi < i { LessTransitive(next[ni].sha, prev[pi].sha, prev[i].sha); }
    }
  }

  /** A track of one list that stands strictly between the two halves of the
      other is not in it. */
  lemma NoNewRow(prev: seq<Stored>, next: seq<Track>, pi: nat, ni: nat)
    requires pi < |prev| && Aligned(prev, next, pi, ni) && Aligned(prev, next, pi + 1, ni)
    ensures NewRow(next, prev[pi].sha) == None
  {
    forall j | 0 <= j < |next| ensures next[j].sha != prev[pi].sha {
      LessIrreflexive(prev[pi].sha);
      if j < ni {
        assert Less(next[j].sha, prev[pi].sha);
      } else {
        assert Less(prev[pi].sha, next[j].sha);
      }
    }
  }

  lemma NoOldRow(prev: seq<Stored>, next: seq<Track>, pi: nat, ni: nat)
    requires ni < |next| && Aligned(prev, next, pi, ni) && Aligned(prev, next, pi, ni + 1)
    ensures OldRow(prev, next[ni].sha) == None
  {
    forall i | 0 <= i < |prev| ensures prev[i].sha != next[ni].sha {
      LessIrreflexive(next[ni].sha);
      if i < pi {
        assert Less(prev[i].sha, next[ni].sha);
      } else {
        assert Less(next[ni].sha, prev[i].sha);
      }
    }
  }

  lemma AlignedBoth(prev: seq<Stored>, next: seq<Track>, pi: nat, ni: nat)
    requires StoredSorted(prev) && TracksSorted(next) && Aligned(prev, next, pi, ni) && pi < |prev| && ni < |next|
    requires prev[pi].sha == next[ni].sha
    ensures Aligned(prev, next, pi + 1, ni + 1)
    ensures OldRow(prev, next[ni].sha) == Some(prev[pi]) && NewRow(next, prev[pi].sha) == Some(next[ni])
  {
    OldRowAt(prev, pi);
    NewRowAt(next, ni);
  }

  lemma StepRemoved(prev: seq<Stored>, next: seq<Track>, pi: nat, ni: nat, d: Diff)
    requires DiffSoFar(prev, next, pi, ni, d) && pi < |prev| && NewRow(next, prev[pi].sha) == None
    ensures DiffSoFar(prev, next, pi + 1, ni,
                      d.(removed := d.removed + [prev[pi]], removedBytes := d.removedBytes + prev[pi].size))
  {
    assert (d.removed + [prev[pi]])[..|d.removed|] == d.removed;
  }

  lemma StepAdded(prev: seq<Stored>, next: seq<Track>, pi: nat, ni: nat, d: Diff)
    requires DiffSoFar(prev, next, pi, ni, d) && ni < |next| && OldRow(prev, next[ni].sha) == None
    ensures DiffSoFar(prev, next, pi, ni + 1,
                      d.(added := d.added + [next[ni]], addedBytes := d.addedBytes + next[ni].size))
  {
    assert (d.added + [next[ni]])[..|d.added|] == d.added;
  }

  lemma StepBoth(prev: seq<Stored>, next: seq<Track>, pi: nat, ni: nat, d: Diff)
    requires DiffSoFar(prev, next, pi, ni, d) && pi < |prev| && ni < |next|
    requires OldRow(prev, next[ni].sha) == Some(prev[pi]) && NewRow(next, prev[pi].sha) == Some(next[ni])
    ensures DiffSoFar(prev, next, pi + 1, ni + 1,
                      if prev[pi].csv == Join(next[ni].buckets) then d
                      else d.(shifted := d.shifted + [ShiftOf(prev[pi], next[ni])]))
  {
  }

  method SetDiff(a: seq<string>, b: seq<string>) returns (r: seq<string>)
    ensures r == Minus(a, b)
  {
    r := [];
    for i := 0 to |a|
      invariant r == Minus(a[..i], b)
    {
      assert a[..i + 1][..i] == a[..i];
      if a[i] !in b { r := r + [a[i]]; }
    }
    assert a[..|a|] == a;
  }

  method Compare(p: Stored, n: Track) returns (shift: Option<Shift>)
    ensures shift == if p.csv == Join(n.buckets) then None else Some(ShiftOf(p, n))
  {
    var csv := ToCsv(n.buckets);
    if p.csv == csv { return None; }
    var was := SplitCsv(p.csv);
    var gained := SetDiff(n.buckets, was);
    var lost := SetDiff(was, n.buckets);
    return Some(Shift(n.sha, gained, lost));
  }

  /** What holds whenever the merge stands at pi and ni. */
  ghost predicate Merging(prev: seq<Stored>, next: seq<Track>, pi: nat, ni: nat, d: Diff) {
    StoredSorted(prev) && TracksSorted(next) && Aligned(prev, next, pi, ni) && DiffSoFar(prev, next, pi, ni, d)
  }

  lemma MergeStart(prev: seq<Stored>, next: seq<Track>)
    requires StoredSorted(prev) && TracksSorted(next)
    ensures Merging(prev, next, 0, 0, Diff([], [], [], 0, 0))
  {
  }

  /** One track of the old manifest alone. */
  method RemoveOne(prev: seq<Stored>, next: seq<Track>, pi: nat, ni: nat, was: Diff) returns (d: Diff)
    requires Merging(prev, next, pi, ni, was) && pi < |prev|
    requires ni < |next| ==> Less(prev[pi].sha, next[ni].sha)
    ensures Merging(prev, next, pi + 1, ni, d)
  {
    AlignedLow(prev, next, pi, ni);
    NoNewRow(prev, next, pi, ni);
    StepRemoved(prev, next, pi, ni, was);
    d := was.(removed := was.removed + [prev[pi]], removedBytes := was.removedBytes + prev[pi].size);
  }

  /** One track of the new manifest alone. */
  method AddOne(prev: seq<Stored>, next: seq<Track>, pi: nat, ni: nat, was: Diff) returns (d: Diff)
    requires Merging(prev, next, pi, ni, was) && ni < |next|
    requires pi < |prev| ==> Less(next[ni].sha, prev[pi].sha)
    ensures Merging(prev, next, pi, ni + 1, d)
  {
    AlignedHigh(prev, next, pi, ni);
    NoOldRow(prev, next, pi, ni);
    StepAdded(prev, next, pi, ni, was);
    d := was.(added := was.added + [next[ni]], addedBytes := was.addedBytes + next[ni].size);
  }

  /** One track of both. */
  method CompareBoth(prev: seq<Stored>, next: seq<Track>, pi: nat, ni: nat, was: Diff) returns (d: Diff)
    requires Merging(prev, next, pi, ni, was)
    requires pi < |prev| && ni < |next| && prev[pi].sha == next[ni].sha
    ensures Merging(prev, next, pi + 1, ni + 1, d)
  {
    AlignedBoth(prev, next, pi, ni);
    StepBoth(prev, next, pi, ni, was);
    var shift := Compare(prev[pi], next[ni]);
    d := was;
    if shift.Some? { d := d.(shifted := d.shifted + [shift.value]); }
  }

  /** The first loop after the merge loop. */
  method MergePrev(prev: seq<Stored>, next: seq<Track>, from: nat, ni: nat, d0: Diff) returns (d: Diff)
    requires Merging(prev, next, from, ni, d0) && (from == |prev| || ni == |next|)
    ensures Merging(prev, next, |prev|, ni, d)
  {
    d := d0;
    var pi := from;
    while pi < |prev|
      invariant 0 <= pi && Merging(prev, next, pi, ni, d)
      invariant pi < |prev| ==> ni == |next|
    {
      d := RemoveOne(prev, next, pi, ni, d);
      pi := pi + 1;
    }
  }

  /** The second loop after it. */
  method MergeNext(prev: seq<Stored>, next: seq<Track>, from: nat, d0: Diff) returns (d: Diff)
    requires Merging(prev, next, |prev|, from, d0)
    ensures Merging(prev, next, |prev|, |next|, d)
  {
    d := d0;
    var ni := from;
    while ni < |next|
      invariant 0 <= ni && Merging(prev, next, |prev|, ni, d)
    {
      d := AddOne(prev, next, |prev|, ni, d);
      ni := ni + 1;
    }
  }

  /** The two loops after the merge loop. */
  method MergeRest(prev: seq<Stored>, next: seq<Track>, pi: nat, ni: nat, d0: Diff) returns (d: Diff)
    requires Merging(prev, next, pi, ni, d0)
    requires pi == |prev| || ni == |next|
    ensures d.added == Added(prev, next) && d.removed == Removed(prev, next) && d.shifted == Shifted(prev, next)
    ensures |d.added| - |d.removed| == |next| - |prev|
    ensures d.addedBytes == TrackBytes(d.added) && d.removedBytes == StoredBytes(d.removed)
  {
    d := MergePrev(prev, next, pi, ni, d0);
    d := MergeNext(prev, next, ni, d);
  }

  /** print_resolve_diff up to the output. */
  method Merge(prev: seq<Stored>, next: seq<Track>) returns (d: Diff)
    requires StoredSorted(prev) && TracksSorted(next)
    ensures d.added == Added(prev, next) && d.removed == Removed(prev, next) && d.shifted == Shifted(prev, next)
    ensures |d.added| - |d.removed| == |next| - |prev|
    ensures d.addedBytes == TrackBytes(d.added) && d.removedBytes == StoredBytes(d.removed)
  {
    d := Diff([], [], [], 0, 0);
    var pi, ni := 0, 0;
    MergeStart(prev, next);
    while pi < |prev| && ni < |next|
      invariant 0 <= pi && 0 <= ni && Merging(prev, next, pi, ni, d)
      decreases |prev| - pi + |next| - ni
    {
      if Less(prev[pi].sha, next[ni].sha) {
        d := RemoveOne(prev, next, pi, ni, d);
        pi := pi + 1;
      } else if Less(next[ni].sha, prev[pi].sha) {
        d := AddOne(prev, next, pi, ni, d);
        ni := ni + 1;
      } else {
        LessTotal(prev[pi].sha, next[ni].sha);
        d := CompareBoth(prev, next, pi, ni, d);
        pi, ni := pi + 1, ni + 1;
      }
    }
    d := MergeRest(prev, next, pi, ni, d);
  }

  // ---- what a reader can rebuild from the diff -----------------------------

  function Names(s: seq<string>): set<string> { set x | x in s }

  /** The bucket set a manifest gives a sha. */
  function OldSet(p: Option<Stored>): Option<set<string>> {
    if p.None? then None else Some(Names(Split(p.value.csv)))
  }

  function NewSet(n: Option<Track>): Option<set<string>> {
    if n.None? then None else Some(Names(n.value.buckets))
  }

  function ShiftRow(s: seq<Shift>, sha: Sha): (r: Option<Shift>)
    ensures r.Some? ==> r.value in s && r.value.sha == sha
    ensures r.None? ==> forall x :: x in s ==> x.sha != sha
  {
    if s == [] then None
    else if s[|s| - 1].sha == sha then Some(s[|s| - 1])
    else
      assert s == s[..|s| - 1] + [s[|s| - 1]];
      ShiftRow(s[..|s| - 1], sha)
  }

  /** Applying a printed diff to the old bucket sets. */
  function Patched(prev: seq<Stored>, d: Diff, sha: Sha): Option<set<string>> {
    Patch(OldRow(prev, sha), NewRow(d.added, sha), OldRow(d.removed, sha), ShiftRow(d.shifted, sha))
  }

  function Patch(was: Option<Stored>, added: Option<Track>, removed: Option<Stored>,
                 shift: Option<Shift>): Option<set<string>> {
    if added.Some? then NewSet(added)
    else if removed.Some? then None
    else if shift.Some? && was.Some? then
      Some(Names(Split(was.value.csv)) - Names(shift.value.lost) + Names(shift.value.gained))
    else OldSet(was)
  }

  lemma OldRowSnoc(s: seq<Stored>, p: Stored, sha: Sha)
    ensures OldRow(s + [p], sha) == if p.sha == sha then Some(p) else OldRow(s, sha)
  {
    assert (s + [p])[..|s|] == s;
  }

  lemma NewRowSnoc(s: seq<Track>, n: Track, sha: Sha)
    ensures NewRow(s + [n], sha) == if n.sha == sha then Some(n) else NewRow(s, sha)
  {
    assert (s + [n])[..|s|] == s;
  }

  lemma ShiftRowSnoc(s: seq<Shift>, x: Shift, sha: Sha)
    ensures ShiftRow(s + [x], sha) == if x.sha == sha then Some(x) else ShiftRow(s, sha)
  {
    assert (s + [x])[..|s|] == s;
  }

  // Each part of the diff, looked up by sha.

  lemma {:induction false} AddedUpToAt(prev: seq<Stored>, next: seq<Track>, n: nat, sha: Sha)
    requires n <= |next|
    ensures NewRow(AddedUpTo(prev, next, n), sha) == if OldRow(prev, sha).None? then NewRow(next[..n], sha) else None
  {
    if n == 0 {
    } else {
      AddedUpToAt(prev, next, n - 1, sha);
      NewRowSnoc(AddedUpTo(prev, next, n - 1), next[n - 1], sha);
      NewRowSnoc(next[..n - 1], next[n - 1], sha);
      assert next[..n] == next[..n - 1] + [next[n - 1]];
    }
  }

  lemma AddedAt(prev: seq<Stored>, next: seq<Track>, sha: Sha)
    ensures NewRow(Added(prev, next), sha) == if OldRow(prev, sha).None? then NewRow(next, sha) else None
  {
    AddedUpToAt(prev, next, |next|, sha);
    assert next[..|next|] == next;
  }

  lemma {:induction false} RemovedUpToAt(prev: seq<Stored>, next: seq<Track>, n: nat, sha: Sha)
    requires n <= |prev|
    ensures OldRow(RemovedUpTo(prev, next, n), sha) == if NewRow(next, sha).None? then OldRow(prev[..n], sha) else None
  {
    if n == 0 {
    } else {
      RemovedUpToAt(prev, next, n - 1, sha);
      OldRowSnoc(RemovedUpTo(prev, next, n - 1), prev[n - 1], sha);
      OldRowSnoc(prev[..n - 1], prev[n - 1], sha);
      assert prev[..n] == prev[..n - 1] + [prev[n - 1]];
    }
  }

  lemma RemovedAt(prev: seq<Stored>, next: seq<Track>, sha: Sha)
    ensures OldRow(Removed(prev, next), sha) == if NewRow(next, sha).None? then OldRow(prev, sha) else None
  {
    RemovedUpToAt(prev, next, |prev|, sha);
    assert prev[..|prev|] == prev;
  }

  /** What track n of next contributes. */
  lemma ShiftedStep(prev: seq<Stored>, next: seq<Track>, n: nat, x: Option<Shift>, sha: Sha)
    requires n < |next| && x == ShiftBetween(OldRow(prev, next[n].sha), Some(next[n]))
    ensures ShiftRow(ShiftedUpTo(prev, next, n + 1), sha)
            == if x.Some? && next[n].sha == sha then x else ShiftRow(ShiftedUpTo(prev, next, n), sha)
  {
    if x.Some? { ShiftRowSnoc(ShiftedUpTo(prev, next, n), x.value, sha); }
  }

  lemma OtherStep(prev: seq<Stored>, next: seq<Track>, n: nat, sha: Sha)
    requires n < |next| && next[n].sha != sha
    ensures ShiftRow(ShiftedUpTo(prev, next, n + 1), sha) == ShiftRow(ShiftedUpTo(prev, next, n), sha)
  {
    ShiftedStep(prev, next, n, ShiftBetween(OldRow(prev, next[n].sha), Some(next[n])), sha);
  }

  lemma {:induction false} NotShifted(prev: seq<Stored>, next: seq<Track>, n: nat, sha: Sha)
    requires n <= |next| && forall i :: 0 <= i < n ==> next[i].sha != sha
    ensures ShiftRow(ShiftedUpTo(prev, next, n), sha) == None
  {
    if n == 0 {
    } else {
      NotShifted(prev, next, n - 1, sha);
      OtherStep(prev, next, n - 1, sha);
    }
  }

  lemma {:induction false} ShiftedUpToAt(prev: seq<Stored>, next: seq<Track>, n: nat, i: nat, x: Option<Shift>)
    requires i < n <= |next| && forall j :: 0 <= j < |next| && j != i ==> next[j].sha != next[i].sha
    requires x == ShiftBetween(OldRow(prev, next[i].sha), Some(next[i]))
    ensures ShiftRow(ShiftedUpTo(prev, next, n), next[i].sha) == x
  {
    if i == n - 1 {
      NotShifted(prev, next, n - 1, next[i].sha);
      ShiftedStep(prev, next, n - 1, x, next[i].sha);
    } else {
      ShiftedUpToAt(prev, next, n - 1, i, x);
      OtherStep(prev, next, n - 1, next[i].sha);
    }
  }

  lemma OnlyRow(s: seq<Track>, i: nat)
    requires TracksSorted(s) && i < |s|
    ensures forall j :: 0 <= j < |s| && j != i ==> s[j].sha != s[i].sha
  {
    forall j | 0 <= j < |s| && j != i ensures s[j].sha != s[i].sha {
      LessIrreflexive(s[i].sha);
      assert if j < i then Less(s[j].sha, s[i].sha) else Less(s[i].sha, s[j].sha);
    }
  }

  lemma ShiftedAt(prev: seq<Stored>, next: seq<Track>, sha: Sha)
    requires TracksSorted(next)
    ensures ShiftRow(Shifted(prev, next), sha) == ShiftBetween(OldRow(prev, sha), NewRow(next, sha))
  {
    var t := NewRow(next, sha);
    if t.None? {
      NotShifted(prev, next, |next|, sha);
    } else {
      var i :| 0 <= i < |next| && next[i] == t.value;
      OnlyRow(next, i);
      ShiftedUpToAt(prev, next, |next|, i, ShiftBetween(OldRow(prev, sha), Some(next[i])));
    }
  }

  predicate CommaFree(names: seq<string>) { forall x :: x in names ==> ',' !in x }

  lemma SplitNames(names: seq<string>)
    ensures Names(Split(Join(names))) == Names(names) <==> CommaFree(names) && names != [""]
  {
    SplitUndoesJoin(names);
    var parts := Split(Join(names));
    if names == [""] { assert "" in Names(names) && "" !in parts; }
    forall x | x in names && Names(parts) == Names(names) ensures ',' !in x {
      assert x in Names(parts);
    }
  }

  /** An unchanged csv stands for the new list. */
  predicate Legible(p: Option<Stored>, n: Option<Track>) {
    p.Some? && n.Some? && p.value.csv == Join(n.value.buckets) ==>
      CommaFree(n.value.buckets) && n.value.buckets != [""]
  }

  lemma PatchRows(p: Option<Stored>, n: Option<Track>)
    ensures Patch(p, if p.None? then n else None, if n.None? then p else None, ShiftBetween(p, n)) == NewSet(n)
            <==> Legible(p, n)
  {
    if p.Some? && n.Some? {
      var was, now := Split(p.value.csv), n.value.buckets;
      SplitNames(now);
      assert Names(was) - Names(Minus(was, now)) + Names(Minus(now, was)) == Names(now);
    }
  }

  /** Applying the diff to the old bucket sets gives the new ones, for a track
      whose csv is unchanged just when its names are comma-free and not [""]. */
  lemma DiffIsExact(prev: seq<Stored>, next: seq<Track>, d: Diff, sha: Sha)
    requires TracksSorted(next)
    requires d.added == Added(prev, next) && d.removed == Removed(prev, next) && d.shifted == Shifted(prev, next)
    ensures Patched(prev, d, sha) == NewSet(NewRow(next, sha)) <==> Legible(OldRow(prev, sha), NewRow(next, sha))
  {
    AddedAt(prev, next, sha);
    RemovedAt(prev, next, sha);
    ShiftedAt(prev, next, sha);
    PatchRows(OldRow(prev, sha), NewRow(next, sha));
  }
}
