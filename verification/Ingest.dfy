/** ingest.c, per file: every complete line is handed to its handler once, and
    the offset moves with the effects or not at all. */
module Ingest {
  import opened Prelude
  import opened Jsonl

  /** All calls of the reader from one offset: the lines delivered, where the
      last one left off, and whether an oversize line ran into the end of the
      file. */
  datatype Tail = Tail(lines: seq<seq<Byte>>, next: nat, cut: bool)

  lemma NextAdvances(f: seq<Byte>, off: nat)
    ensures !Next(f, off).result.IoError?
    ensures !Next(f, off).result.End? ==> off < Next(f, off).next <= |f|
    ensures Next(f, off).result.End? ==> Next(f, off).next == off
  {}

  function ReadAll(f: seq<Byte>, off: nat): Tail
    decreases |f| - off
  {
    NextAdvances(f, off);
    var Step(r, n) := Next(f, off);
    if r.End? then Tail([], off, false) else
    var rest := ReadAll(f, n);
    if r.Line? then rest.(lines := [r.bytes] + rest.lines)
    else rest.(cut := rest.cut || LineEnd(f, off) == |f|)
  }

  /** The last bytes hold no newline for longer than a line may be: an oversize
      line runs into the end of the file. */
  predicate CutShort(f: seq<Byte>, off: nat) {
    off <= |f| && |f| - off > 65536 && 10 !in f[|f| - 65537..]
  }

  lemma CutByNewline(f: seq<Byte>, off: nat, e: nat)
    requires off <= e < |f| && f[e] == NEWLINE
    ensures CutShort(f, off) <==> CutShort(f, e + 1)
  {
    var k := |f| - MAX_LINE - 1;
    if 0 <= k <= e { assert f[k..][e - k] == NEWLINE; }
  }

  lemma NoNewlineAfter(f: seq<Byte>, off: nat, k: nat)
    requires off <= k <= |f| && LineEnd(f, off) == |f|
    ensures NEWLINE !in f[k..]
  {
    forall i | 0 <= i < |f[k..]| ensures f[k..][i] != NEWLINE {}
  }

  lemma {:induction false} CutExactly(f: seq<Byte>, off: nat)
    ensures ReadAll(f, off).cut <==> CutShort(f, off)
    decreases |f| - off
  {
    NextAdvances(f, off);
    var Step(r, n) := Next(f, off);
    if off <= |f| {
      var e := LineEnd(f, off);
      if e < |f| {
        CutByNewline(f, off, e);
        CutExactly(f, n);
      } else if !r.End? {
        NoNewlineAfter(f, off, |f| - MAX_LINE - 1);
      }
    }
  }

  // ---- the lines as bytes --------------------------------------------------

  /** Byte strings, each followed by a newline. */
  function Terminated(lines: seq<seq<Byte>>): seq<Byte> {
    if lines == [] then [] else lines[0] + [10] + Terminated(lines[1..])
  }

  /** Those of at most 65536 bytes. */
  function Short(lines: seq<seq<Byte>>): seq<seq<Byte>> {
    if lines == [] then [] else (if |lines[0]| <= 65536 then [lines[0]] else []) + Short(lines[1..])
  }

  ghost predicate NoNewlines(lines: seq<seq<Byte>>) {
    forall i :: 0 <= i < |lines| ==> 10 !in lines[i]
  }

  lemma OneLineMore(f: seq<Byte>, off: nat, n: nat, next: nat, line: seq<Byte>, rest: seq<seq<Byte>>, tail: seq<Byte>)
    requires off <= n <= next <= |f| && f[off..n] == line + [10] && f[n..next] == Terminated(rest) + tail
    ensures f[off..next] == Terminated([line] + rest) + tail
    ensures Short([line] + rest) == (if |line| <= 65536 then [line] else []) + Short(rest)
  {
    assert ([line] + rest)[1..] == rest;
    assert f[off..next] == f[off..n] + f[n..next];
  }

  /** A line that ends in a newline, delivered or not. */
  lemma WholeLine(f: seq<Byte>, off: nat) returns (line: seq<Byte>)
    requires off <= |f| && !Next(f, off).result.End?
    requires !(Next(f, off).result.Oversize? && Next(f, off).next == |f| && 10 !in f[off..])
    ensures var n := Next(f, off).next;
            off < n <= |f| && f[off..n] == line + [10] && 10 !in line && f[n - 1] == NEWLINE
    ensures var r := Next(f, off).result;
            if r.Line? then r.bytes == line && |line| <= 65536 else r.Oversize? && |line| > 65536
  {
    NextAdvances(f, off);
    NextDelivers(f, off);
    var Step(r, n) := Next(f, off);
    line := if r.Line? then r.bytes else f[off..n - 1];
    if r.Oversize? {
      assert f[off..n] == line + [10];
      assert off + 65536 < n - 1 by { assert f[off..off + 65537][65536] != 10; }
    } else {
      assert f[off..n][|line|] == 10;
    }
  }

  /** What was read is made of lines, those of at most 65536 bytes delivered and
      the others not, and perhaps a cut one at the end of the file; a tail of at
      most 65536 bytes without a newline is left. */
  lemma {:induction false} ReadAllBytes(f: seq<Byte>, off: nat) returns (lines: seq<seq<Byte>>, tail: seq<Byte>)
    requires off <= |f|
    ensures var t := ReadAll(f, off);
            && off <= t.next <= |f| && f[off..t.next] == Terminated(lines) + tail
            && NoNewlines(lines) && t.lines == Short(lines)
            && (if CutShort(f, off) then |tail| > 65536 && 10 !in tail && t.next == |f| else tail == [])
            && 10 !in f[t.next..] && |f| - t.next <= 65536
    decreases |f| - off
  {
    NextAdvances(f, off);
    NextDelivers(f, off);
    var Step(r, n) := Next(f, off);
    if r.End? {
      lines, tail := [], [];
      CutExactly(f, off);
    } else if r.Oversize? && n == |f| && 10 !in f[off..] {
      lines, tail := [], f[off..];
      WholeTail(f, off);
    } else {
      var line := WholeLine(f, off);
      var rest;
      rest, tail := ReadAllBytes(f, n);
      lines := [line] + rest;
      OneLineMore(f, off, n, ReadAll(f, n).next, line, rest, tail);
      CutByNewline(f, off, n - 1);
    }
  }

  /** Nothing but a cut line. */
  lemma WholeTail(f: seq<Byte>, off: nat)
    requires off <= |f| && |f| - off > 65536 && 10 !in f[off..]
    ensures ReadAll(f, off) == Tail([], |f|, true) && CutShort(f, off)
  {
    forall i | off <= i < |f| ensures f[i] != 10 { assert f[off..][i - off] == f[i]; }
    assert Next(f, |f|) == Step(End, |f|);
    assert Next(f, off) == Step(Oversize, |f|);
    var end := f[|f| - 65537..];
    forall i | 0 <= i < |end| ensures end[i] != 10 { assert end[i] == f[|f| - 65537 + i]; }
  }

  /** No oversize line passes through position a. */
  predicate NewlineBy(f: seq<Byte>, a: nat) { a + 65537 <= |f| ==> 10 in f[a..a + 65537] }

  /** When no line is oversize, the lines delivered are the bytes read. */
  lemma {:induction false} AllDelivered(f: seq<Byte>, off: nat)
    requires off <= |f| && forall a :: off <= a ==> NewlineBy(f, a)
    ensures var t := ReadAll(f, off);
            off <= t.next <= |f| && Terminated(t.lines) == f[off..t.next] && NoNewlines(t.lines)
    decreases |f| - off
  {
    NextAdvances(f, off);
    NextDelivers(f, off);
    var Step(r, n) := Next(f, off);
    assert NewlineBy(f, off);
    if r.Line? {
      AllDelivered(f, n);
      OneLineMore(f, off, n, ReadAll(f, n).next, r.bytes, ReadAll(f, n).lines, []);
    }
  }

  /** bytes is made of lines, and those of at most 65536 bytes are these. */
  ghost predicate ShortLinesOf(bytes: seq<Byte>, short: seq<seq<Byte>>) {
    exists lines :: NoNewlines(lines) && Terminated(lines) == bytes && short == Short(lines)
  }

  lemma AllRead(p: seq<Byte>, short: seq<seq<Byte>>)
    requires ReadAll(p, 0) == Tail(short, |p|, false)
    ensures ShortLinesOf(p, short)
  {
    var lines, tail := ReadAllBytes(p, 0);
    CutExactly(p, 0);
    assert p[0..|p|] == p;
  }

  /** Reading on after t. */
  function Then(t: Tail, u: Tail): Tail { Tail(t.lines + u.lines, u.next, u.cut) }

  lemma {:induction false} ReadAllBounds(f: seq<Byte>, off: nat)
    ensures off <= ReadAll(f, off).next && (off <= |f| ==> ReadAll(f, off).next <= |f|)
    ensures ReadAll(f, off).next > off || ReadAll(f, off) == Tail([], off, false)
    decreases |f| - off
  {
    NextAdvances(f, off);
    var Step(r, n) := Next(f, off);
    if !r.End? { ReadAllBounds(f, n); }
  }

  lemma LineEndStable(f: seq<Byte>, g: seq<Byte>, off: nat)
    requires f <= g && off <= |f| && LineEnd(f, off) < |f|
    ensures LineEnd(g, off) == LineEnd(f, off)
  {
    var e := LineEnd(f, off);
    assert forall i :: off <= i <= e ==> g[i] == f[i];
  }

  lemma NextStable(f: seq<Byte>, g: seq<Byte>, off: nat)
    requires f <= g && off <= |f| && LineEnd(f, off) < |f|
    ensures Next(g, off) == Next(f, off)
  {
    LineEndStable(f, g, off);
    assert g[off..LineEnd(f, off)] == f[off..LineEnd(f, off)];
  }

  lemma LineFirst(line: seq<Byte>, xs: seq<seq<Byte>>, ys: seq<seq<Byte>>)
    ensures ([line] + xs) + ys == [line] + (xs + ys)
  {
  }

  /** Reading a file and then reading on once it has grown is reading the
      grown file, unless an oversize line was cut off by the end of the file. */
  lemma {:induction false} GrowthStable(f: seq<Byte>, g: seq<Byte>, off: nat)
    requires f <= g && !CutShort(f, off)
    ensures ReadAll(g, off) == Then(ReadAll(f, off), ReadAll(g, ReadAll(f, off).next))
    decreases |f| - off
  {
    NextAdvances(f, off);
    CutExactly(f, off);
    var Step(r, n) := Next(f, off);
    if !r.End? {
      CutExactly(f, n);
      NextStable(f, g, off);
      GrowthStable(f, g, n);
      if r.Line? {
        LineFirst(r.bytes, ReadAll(f, n).lines, ReadAll(g, ReadAll(f, n).next).lines);
      }
    }
  }

  /** The newline that ends a cut line arrives. */
  lemma CutLineEnds(f: seq<Byte>, g: seq<Byte>, off: nat)
    requires off <= |f| && LineEnd(f, off) == |f| && |f| - off > MAX_LINE && g == f + [NEWLINE]
    ensures ReadAll(g, off).lines == [] && ReadAll(g, |f|).lines == [[]]
  {
    assert g[|f|] == NEWLINE;
    forall i | off <= i < |f| ensures g[i] != NEWLINE { assert g[i] == f[i]; }
    var e := LineEnd(g, off);
    assert e == |f|;
    assert Next(g, off) == Step(Oversize, |g|);
    assert Next(g, |g|) == Step(End, |g|);
    assert LineEnd(g, |f|) == |f| && g[|f|..|f|] == [];
    assert Next(g, |f|) == Step(Line([]), |g|);
    assert ReadAll(g, |g|).lines == [];
  }

  /** The tail of a cut line is later taken for a line of its own, so the
      condition is exact. */
  lemma {:induction false} CutLeaks(f: seq<Byte>, off: nat)
    requires CutShort(f, off)
    ensures var g := f + [NEWLINE];
            ReadAll(g, off).lines != Then(ReadAll(f, off), ReadAll(g, ReadAll(f, off).next)).lines
    decreases |f| - off
  {
    var g := f + [NEWLINE];
    NextAdvances(f, off);
    var Step(r, n) := Next(f, off);
    if LineEnd(f, off) < |f| {
      CutByNewline(f, off, LineEnd(f, off));
      NextStable(f, g, off);
      CutLeaks(f, n);
      if r.Line? {
        var a, b, c := ReadAll(g, n).lines, ReadAll(f, n).lines, ReadAll(g, ReadAll(f, n).next).lines;
        assert ([r.bytes] + b) + c == [r.bytes] + (b + c);
        assert ([r.bytes] + (b + c))[1..] == b + c && ([r.bytes] + a)[1..] == a;
      }
    } else {
      assert n == |f| && Next(f, n) == Step(End, n);
      CutLineEnds(f, g, off);
    }
  }

  lemma GrowthStableExactly(f: seq<Byte>, off: nat)
    ensures (forall g :: f <= g ==> ReadAll(g, off) == Then(ReadAll(f, off), ReadAll(g, ReadAll(f, off).next)))
            <==> !CutShort(f, off)
  {
    if CutShort(f, off) {
      CutLeaks(f, off);
      assert f <= f + [NEWLINE];
    } else {
      forall g | f <= g ensures ReadAll(g, off) == Then(ReadAll(f, off), ReadAll(g, ReadAll(f, off).next)) {
        GrowthStable(f, g, off);
      }
    }
  }

  lemma NextOnPrefix(f: seq<Byte>, m: nat, off: nat)
    requires m <= |f| && off <= |f| && LineEnd(f, off) < m
    ensures Next(f[..m], off) == Next(f, off)
  {
    var p, e := f[..m], LineEnd(f, off);
    assert forall i :: off <= i <= e ==> p[i] == f[i];
    assert LineEnd(p, off) == e;
    assert p[off..e] == f[off..e];
  }

  /** What has been read depends only on the bytes up to where it stopped. */
  lemma {:induction false} PrefixSuffices(f: seq<Byte>, off: nat)
    requires off <= |f| && !CutShort(f, off)
    ensures ReadAll(f, off).next <= |f| && ReadAll(f[..ReadAll(f, off).next], off) == ReadAll(f, off)
    decreases |f| - off
  {
    ReadAllBounds(f, off);
    NextAdvances(f, off);
    var p := f[..ReadAll(f, off).next];
    var Step(r, n) := Next(f, off);
    if r.End? {
      assert Next(p, off) == Step(End, off);
    } else {
      ReadAllBounds(f, n);
      var e := LineEnd(f, off);
      CutExactly(f, off);
      CutByNewline(f, off, e);
      NextOnPrefix(f, |p|, off);
      PrefixSuffices(f, n);
    }
  }

  /** A pass from a stored offset extends what the bytes before it deliver. */
  lemma PassExtends(f: seq<Byte>, off: nat, delivered: seq<seq<Byte>>)
    requires off <= |f| && ReadAll(f[..off], 0) == Tail(delivered, off, false) && !CutShort(f, off)
    ensures var pass := ReadAll(f, off);
            pass.next <= |f| && ReadAll(f[..pass.next], 0) == Tail(delivered + pass.lines, pass.next, false)
  {
    ReadAllBounds(f, off);
    PrefixSuffices(f, off);
    CutExactly(f, off);
    var p, q := f[..off], f[..ReadAll(f, off).next];
    assert p <= q;
    CutExactly(p, 0);
    GrowthStable(p, q, 0);
  }

  // ---- what the handlers make of the lines ---------------------------------

  datatype Handled<S> = Done(db: S) | Skipped | Fatal

  /** One line: empty ones never reach the handler. */
  function HandleLine<S>(h: (S, seq<Byte>) -> Handled<S>, db: S, line: seq<Byte>): Option<S> {
    if line == [] then Some(db) else
    match h(db, line)
    case Done(d) => Some(d)
    case Skipped => Some(db)
    case Fatal => None
  }

  /** The effects of some lines, in order; a fatal error ends it. */
  function Deliver<S>(h: (S, seq<Byte>) -> Handled<S>, db: S, lines: seq<seq<Byte>>): Option<S> {
    if lines == [] then Some(db) else
    var front := Deliver(h, db, lines[..|lines| - 1]);
    if front.None? then None else HandleLine(h, front.value, lines[|lines| - 1])
  }

  /** The handler that writes down what it is given. */
  function Record(log: seq<seq<Byte>>, line: seq<Byte>): Handled<seq<seq<Byte>>> { Done(log + [line]) }

  function NonEmpty(lines: seq<seq<Byte>>): seq<seq<Byte>> {
    if lines == [] then [] else
    NonEmpty(lines[..|lines| - 1]) + if lines[|lines| - 1] == [] then [] else [lines[|lines| - 1]]
  }

  /** Every line that is not empty reaches the handler once, in order, with the
      tables the lines before it left, and what it answers is kept. */
  lemma {:induction false} DeliverRecords(log: seq<seq<Byte>>, lines: seq<seq<Byte>>)
    ensures Deliver(Record, log, lines) == Some(log + NonEmpty(lines))
  {
    if lines == [] {
      assert log + [] == log;
    } else {
      var front, last := lines[..|lines| - 1], lines[|lines| - 1];
      DeliverRecords(log, front);
      var written := log + NonEmpty(front);
      assert HandleLine(Record, written, last) == Some(if last == [] then written else written + [last]);
      assert log + (NonEmpty(front) + [last]) == written + [last] && NonEmpty(front) + [] == NonEmpty(front);
    }
  }

  /** One line more: the tables the handler answers with, the same tables for a
      line it skips or an empty one, none if it fails. */
  lemma DeliverStep<S>(h: (S, seq<Byte>) -> Handled<S>, db: S, lines: seq<seq<Byte>>, line: seq<Byte>, d: S)
    requires Deliver(h, db, lines) == Some(d)
    ensures line == [] || h(d, line) == Skipped ==> Deliver(h, db, lines + [line]) == Some(d)
    ensures line != [] && h(d, line).Done? ==> Deliver(h, db, lines + [line]) == Some(h(d, line).db)
    ensures line != [] && h(d, line) == Fatal ==> Deliver(h, db, lines + [line]) == None
  {
    DeliverSnoc(h, db, lines, line, d);
  }

  /** The handler fails on line i, in the tables the lines before it left. */
  ghost predicate FailsAt<S>(h: (S, seq<Byte>) -> Handled<S>, db: S, lines: seq<seq<Byte>>, i: int) {
    && 0 <= i < |lines| && lines[i] != []
    && Deliver(h, db, lines[..i]).Some? && h(Deliver(h, db, lines[..i]).value, lines[i]) == Fatal
  }

  ghost predicate Fails<S>(h: (S, seq<Byte>) -> Handled<S>, db: S, lines: seq<seq<Byte>>) {
    exists i :: FailsAt(h, db, lines, i)
  }

  /** A pass comes to nothing exactly when the handler fails on some line. */
  lemma {:induction false} FatalExactly<S>(h: (S, seq<Byte>) -> Handled<S>, db: S, lines: seq<seq<Byte>>)
    ensures Deliver(h, db, lines).None? <==> Fails(h, db, lines)
  {
    if lines == [] {
    } else {
      var n := |lines| - 1;
      FatalExactly(h, db, lines[..n]);
      forall i | 0 <= i < n ensures FailsAt(h, db, lines[..n], i) <==> FailsAt(h, db, lines, i) {
        assert lines[..n][..i] == lines[..i];
      }
      if Deliver(h, db, lines).None? && Deliver(h, db, lines[..n]).Some? { assert FailsAt(h, db, lines, n); }
      if FailsAt(h, db, lines, n) { assert Deliver(h, db, lines).None?; }
    }
  }

  /** When it skips every line nothing changes. */
  lemma {:induction false} SkippedChangesNothing<S>(h: (S, seq<Byte>) -> Handled<S>, db: S, lines: seq<seq<Byte>>)
    requires forall i :: 0 <= i < |lines| && lines[i] != [] ==> h(db, lines[i]) == Skipped
    ensures Deliver(h, db, lines) == Some(db)
  {
    if lines == [] {
    } else {
      SkippedChangesNothing(h, db, lines[..|lines| - 1]);
    }
  }

  lemma DeliverSnoc<S>(h: (S, seq<Byte>) -> Handled<S>, db: S, lines: seq<seq<Byte>>, line: seq<Byte>, d: S)
    requires Deliver(h, db, lines) == Some(d)
    ensures Deliver(h, db, lines + [line]) == HandleLine(h, d, line)
  {
    assert (lines + [line])[..|lines|] == lines;
  }

  lemma {:induction false} DeliverThen<S>(h: (S, seq<Byte>) -> Handled<S>, db: S, xs: seq<seq<Byte>>,
                                          ys: seq<seq<Byte>>, d: S)
    requires Deliver(h, db, xs) == Some(d)
    ensures Deliver(h, db, xs + ys) == Deliver(h, d, ys)
  {
    if ys == [] {
      assert xs + ys == xs;
    } else {
      var n := |ys| - 1;
      DeliverThen(h, db, xs, ys[..n], d);
      assert (xs + ys)[..|xs| + n] == xs + ys[..n];
    }
  }

  // ---- histories -----------------------------------------------------------

  /** The file, the stored offset, the lines whose effects are committed, and
      the tables. */
  datatype Store<S> = Store(file: seq<Byte>, offset: nat, delivered: seq<seq<Byte>>, db: S)

  /** Between two states of the history: the phone appends bytes, perhaps
      stopping inside a line, or a pass over the file commits or rolls back. */
  ghost predicate Happens<S>(h: (S, seq<Byte>) -> Handled<S>, s: Store<S>, t: Store<S>) {
    || (s.file <= t.file && t.offset == s.offset && t.delivered == s.delivered && t.db == s.db)
    || (var pass := ReadAll(s.file, s.offset);
        && !CutShort(s.file, s.offset) && Deliver(h, s.db, pass.lines) == Some(t.db)
        && t.file == s.file && t.offset == pass.next && t.delivered == s.delivered + pass.lines)
  }

  /** Over any history, the committed lines are the lines of the file up to
      the stored offset, but for oversize ones, each once and in order, and the
      tables are what those lines make of the first ones. */
  lemma {:induction false} ExactlyOnce<S>(h: (S, seq<Byte>) -> Handled<S>, history: seq<Store<S>>, n: nat)
    requires n < |history| && history[0].offset == 0 && history[0].delivered == []
    requires forall i :: 0 <= i < |history| - 1 ==> Happens(h, history[i], history[i + 1])
    ensures var s := history[n];
            && s.offset <= |s.file| && ReadAll(s.file[..s.offset], 0) == Tail(s.delivered, s.offset, false)
            && ShortLinesOf(s.file[..s.offset], s.delivered)
            && Deliver(h, history[0].db, s.delivered) == Some(s.db)
  {
    if n == 0 {
      assert Next(history[0].file[..0], 0) == Step(End, 0);
    } else {
      ExactlyOnce(h, history, n - 1);
      var s, t := history[n - 1], history[n];
      assert Happens(h, history[n - 1], history[n - 1 + 1]);
      var p := s.file[..s.offset];
      if s.file <= t.file && t.offset == s.offset && t.delivered == s.delivered && t.db == s.db {
        assert t.file[..t.offset] == p;
      } else {
        PassExtends(s.file, s.offset, s.delivered);
        var pass := ReadAll(s.file, s.offset);
        DeliverThen(h, history[0].db, s.delivered, pass.lines, s.db);
      }
    }
    AllRead(history[n].file[..history[n].offset], history[n].delivered);
  }

  // ---- ingest_one_file -----------------------------------------------------

  /** lines have been read from off and the rest is still to come. */
  ghost predicate Halfway(f: seq<Byte>, start: nat, lines: seq<seq<Byte>>, off: nat) {
    var all, rest := ReadAll(f, start), ReadAll(f, off);
    start <= off && lines + rest.lines == all.lines && rest.next == all.next
  }

  lemma OneMore(f: seq<Byte>, start: nat, lines: seq<seq<Byte>>, off: nat)
    requires Halfway(f, start, lines, off)
    ensures !Next(f, off).result.End? ==> off < Next(f, off).next <= |f|
    ensures Next(f, off).result.Line? ==> Halfway(f, start, lines + [Next(f, off).result.bytes], Next(f, off).next)
    ensures Next(f, off).result.Oversize? ==> Halfway(f, start, lines, Next(f, off).next)
    ensures Next(f, off).result.End? ==> ReadAll(f, start).lines == lines && ReadAll(f, start).next == off
  {
    NextAdvances(f, off);
    var rest := ReadAll(f, off);
    if Next(f, off).result.Line? {
      var b, tail := Next(f, off).result.bytes, ReadAll(f, Next(f, off).next).lines;
      assert (lines + [b]) + tail == lines + ([b] + tail);
    }
  }

  class Ingester<S> {
    var db: S                            // the tables the handlers write
    var offset: nat                      // this file's ingest_offsets row, 0 if none
    ghost var delivered: seq<seq<Byte>>  // lines whose effects are committed

    constructor (db: S)
      ensures this.db == db && offset == 0 && delivered == []
    {
      this.db, offset, delivered := db, 0, [];
    }

    /** The line loop, on the tables of the open transaction. */
    static method ReadLines(reader: Reader, h: (S, seq<Byte>) -> Handled<S>, before: S) returns (after: Option<S>)
      requires reader.Valid() && reader.offset <= |reader.file|
      modifies reader, reader.buf
      ensures after.Some? ==>
                var pass := ReadAll(reader.file, old(reader.offset));
                Deliver(h, before, pass.lines) == after && reader.offset == pass.next
    {
      ghost var start := reader.offset;
      ghost var lines: seq<seq<Byte>> := [];
      var work, more := before, true;
      while more
        invariant reader.Valid() && (reader.buf == old(reader.buf) || fresh(reader.buf))
        invariant reader.offset <= |reader.file| && Deliver(h, before, lines) == Some(work)
        invariant if more then Halfway(reader.file, start, lines, reader.offset)
                  else ReadAll(reader.file, start).lines == lines && ReadAll(reader.file, start).next == reader.offset
        decreases |reader.file| - reader.offset, more
      {
        OneMore(reader.file, start, lines, reader.offset);
        var r := reader.ReadLine();
        if r.IoError? { return None; }
        if r.End? { more := false; }
        if r.Line? {
          DeliverSnoc(h, before, lines, r.bytes, work);
          lines := lines + [r.bytes];
          var next := HandleLine(h, work, r.bytes);
          if next.None? { return None; }
          work := next.value;
        }
      }
      return Some(work);
    }

    /** One pass over the file: every line up to the end, or nothing at all. A
        stored offset beyond the end of the file starts over. */
    method IngestOneFile(file: seq<Byte>, h: (S, seq<Byte>) -> Handled<S>) returns (ok: bool)
      modifies this
      ensures !ok ==> db == old(db) && offset == old(offset) && delivered == old(delivered)
      ensures Fails(h, old(db), ReadAll(file, if old(offset) > |file| then 0 else old(offset)).lines) ==> !ok
      ensures ok ==>
                var start := if old(offset) > |file| then 0 else old(offset);
                var pass := ReadAll(file, start);
                && Deliver(h, old(db), pass.lines) == Some(db)
                && offset == (if pass.next > start then pass.next else old(offset))
                && delivered == old(delivered) + pass.lines
    {
      var start := if offset > |file| then 0 else offset;
      var reader := new Reader(file, start);
      var after := ReadLines(reader, h, db);
      FatalExactly(h, db, ReadAll(file, start).lines);
      if after.None? { return false; }
      if * { return false; }  // the offset upsert or COMMIT fails
      db := after.value;
      if reader.offset > start { offset := reader.offset; }
      delivered := delivered + ReadAll(file, start).lines;
      return true;
    }
  }
}
