/** jsonl.c: the line reader of the ingester, a buffer that compacts, grows
    and is refilled by reads of any length. */
module Jsonl {
  import opened Prelude

  type Byte = b: int | 0 <= b < 256 witness 0
  const NEWLINE: Byte := 10
  const MAX_LINE := 65536
  const INITIAL_BUF := 4096

  datatype ReadResult = Line(bytes: seq<Byte>) | Oversize | End | IoError
  datatype Step = Step(result: ReadResult, next: nat)

  /** The first newline at or after from, or the end of the file. */
  function LineEnd(f: seq<Byte>, from: nat): (e: nat)
    requires from <= |f|
    ensures from <= e <= |f| && (e < |f| ==> f[e] == NEWLINE)
    ensures forall i :: from <= i < e ==> f[i] != NEWLINE
    decreases |f| - from
  {
    if from == |f| || f[from] == NEWLINE then from else LineEnd(f, from + 1)
  }

  /** What one call delivers, by the bytes alone: a line of at most MAX_LINE
      bytes, a longer one reported and skipped up to its newline or the end of
      the file, or nothing when the tail has no newline yet. */
  function Next(f: seq<Byte>, off: nat): Step {
    if off > |f| then Step(End, off) else
    var e := LineEnd(f, off);
    if e - off > MAX_LINE then Step(Oversize, if e < |f| then e + 1 else e)
    else if e == |f| then Step(End, off)
    else Step(Line(f[off..e]), e + 1)
  }

  /** Where reading goes on after the line that starts at off. */
  function AfterLine(f: seq<Byte>, off: nat): nat
    requires off <= |f|
  {
    var e := LineEnd(f, off);
    if e < |f| then e + 1 else e
  }

  lemma LineEndIs(f: seq<Byte>, off: nat, e: nat)
    requires off <= e <= |f| && NEWLINE !in f[off..e] && (e < |f| ==> f[e] == NEWLINE)
    ensures LineEnd(f, off) == e
  {
    forall i | off <= i < e ensures f[i] != NEWLINE { assert f[off..e][i - off] == f[i]; }
  }

  /** The same said of the bytes, one of which is at most 65536 from the start
      of its line to the newline, byte 10, that ends it: r is what a call from
      off returns and next where it leaves the offset. */
  predicate Delivers(f: seq<Byte>, off: nat, r: ReadResult, next: nat) {
    match r
    case Line(bytes) =>
      off <= next <= |f| && f[off..next] == bytes + [10] && 10 !in bytes && |bytes| <= 65536
    case Oversize =>
      && off + 65536 < next <= |f| && 10 !in f[off..off + 65537]
      && (|| (next == |f| && 10 !in f[off..])
          || (f[next - 1] == 10 && 10 !in f[off..next - 1]))
    case End => next == off && (off <= |f| ==> |f| - off <= 65536 && 10 !in f[off..])
    case IoError => false
  }

  lemma NextDelivers(f: seq<Byte>, off: nat)
    ensures Delivers(f, off, Next(f, off).result, Next(f, off).next)
  {
    if off <= |f| {
      var e := LineEnd(f, off);
      forall k | off <= k <= e ensures 10 !in f[off..k] {
        forall i | 0 <= i < k - off ensures f[off..k][i] != 10 { assert f[off + i] != NEWLINE; }
      }
      assert f[off..|f|] == f[off..];
      if e < |f| { assert f[off..e + 1] == f[off..e] + [10]; }
    }
  }

  lemma DeliveredIsNext(f: seq<Byte>, off: nat, r: ReadResult, next: nat)
    requires Delivers(f, off, r, next)
    ensures Next(f, off) == Step(r, next)
  {
    if off <= |f| {
      var e := if r.Line? || (r.Oversize? && 10 in f[off..]) then next - 1 else |f|;
      if r.Line? {
        assert f[off..next][..e - off] == f[off..e] == r.bytes;
        assert f[e] == f[off..next][e - off] == 10;
      }
      if r.Oversize? { assert f[off..off + 65537][65536] == f[off + 65536]; }
      assert f[off..|f|] == f[off..];
      LineEndIs(f, off, e);
    }
  }

  /** And there is only one such answer. */
  lemma NextExactly(f: seq<Byte>, off: nat, r: ReadResult, next: nat)
    ensures Delivers(f, off, r, next) <==> Next(f, off) == Step(r, next)
  {
    NextDelivers(f, off);
    if Delivers(f, off, r, next) { DeliveredIsNext(f, off, r, next); }
  }

  /** A newline met at position at of the buffered bytes f[off..pos]. */
  lemma LineBuffered(f: seq<Byte>, off: nat, pos: nat, at: nat)
    requires off <= pos <= |f| && at < pos - off
    requires f[off..pos][at] == NEWLINE && NEWLINE !in f[off..pos][..at]
    ensures LineEnd(f, off) == off + at && f[off..off + at] == f[off..pos][..at]
  {
    assert f[off..pos][..at] == f[off..off + at];
    LineEndIs(f, off, off + at);
  }

  lemma Joined(f: seq<Byte>, a: nat, b: nat, c: nat)
    requires a <= b <= c <= |f|
    ensures f[a..c] == f[a..b] + f[b..c]
  {
  }

  lemma NoneJoined(f: seq<Byte>, a: nat, b: nat, c: nat)
    requires a <= b <= c <= |f| && NEWLINE !in f[a..b] && NEWLINE !in f[b..c]
    ensures NEWLINE !in f[a..c]
  {
    Joined(f, a, b, c);
  }

  /** No newline so far. */
  lemma NoneBuffered(f: seq<Byte>, off: nat, pos: nat)
    requires off <= pos <= |f| && NEWLINE !in f[off..pos]
    ensures LineEnd(f, off) >= pos
    ensures pos == |f| ==> LineEnd(f, off) == |f|
  {
    forall i | off <= i < pos ensures f[i] != NEWLINE { assert f[off..pos][i - off] == f[i]; }
  }

  class Reader {
    const file: seq<Byte>  // what read(2) can see
    var pos: nat           // the descriptor's position
    var buf: array<Byte>
    var bufLen: nat
    var bufPos: nat
    var offset: nat
    var eof: bool
    var err: bool

    ghost predicate Valid()
      reads this, buf
    {
      && bufPos <= bufLen <= buf.Length && INITIAL_BUF <= buf.Length <= MAX_LINE + 1
      && pos == offset + (bufLen - bufPos)
      && (pos <= |file| || bufLen == bufPos)
      && (pos <= |file| ==> buf[bufPos..bufLen] == file[offset..pos])
      && (eof ==> pos >= |file|)
    }

    constructor (file: seq<Byte>, start: nat)
      ensures Valid() && fresh(buf) && this.file == file && offset == start && !err
    {
      this.file := file;
      pos, offset := start, start;
      buf := new Byte[INITIAL_BUF];
      bufLen, bufPos := 0, 0;
      eof, err := false, false;
    }

    /** memmove of buf[k..bufLen] to the front. */
    method Shift(k: nat)
      requires k <= bufLen <= buf.Length
      modifies buf
      ensures buf[..bufLen - k] == old(buf[k..bufLen])
    {
      forall i | 0 <= i < bufLen - k {
        buf[i] := buf[k + i];
      }
    }

    /** jsonl_compact. */
    method Compact()
      requires Valid()
      modifies this`bufLen, this`bufPos, buf
      ensures Valid() && bufPos == 0 && buf[..bufLen] == old(buf[bufPos..bufLen])
    {
      if bufPos == 0 { return; }
      Shift(bufPos);
      bufLen := bufLen - bufPos;
      bufPos := 0;
    }

    /** Writes the bytes from position at on. */
    static method Put(dst: array<Byte>, at: nat, bytes: seq<Byte>)
      requires at + |bytes| <= dst.Length
      modifies dst
      ensures dst[at..at + |bytes|] == bytes && dst[..at] == old(dst[..at])
    {
      forall i | 0 <= i < |bytes| {
        dst[at + i] := bytes[i];
      }
    }

    /** jsonl_grow. */
    method Grow(target: nat)
      requires Valid() && target <= MAX_LINE + 1
      modifies this`buf
      ensures Valid() && buf.Length >= target && (fresh(buf) || buf == old(buf))
      ensures buf.Length >= old(buf.Length)
    {
      if buf.Length >= target { return; }
      var cap := buf.Length;
      while cap < target
        invariant buf.Length <= cap <= MAX_LINE + 1
      {
        cap := cap * 2;
        if cap > MAX_LINE + 1 {
          cap := MAX_LINE + 1;
          break;
        }
      }
      var bigger := new Byte[cap];
      Put(bigger, 0, buf[..bufLen]);
      assert bigger[bufPos..bufLen] == bigger[0..bufLen][bufPos..] == buf[bufPos..bufLen];
      buf := bigger;
    }

    /** n bytes arrive behind those already buffered. */
    method Append(n: nat)
      requires Valid() && n <= buf.Length - bufLen && pos + n <= |file|
      modifies this`pos, this`bufLen, buf
      ensures Valid() && bufLen == old(bufLen) + n && pos == old(pos) + n
    {
      Put(buf, bufLen, file[pos..pos + n]);
      assert buf[bufPos..bufLen] == buf[..bufLen][bufPos..] == old(buf[bufPos..bufLen]);
      assert buf[bufPos..bufLen + n] == buf[bufPos..bufLen] + buf[bufLen..bufLen + n];
      Joined(file, offset, pos, pos + n);
      bufLen := bufLen + n;
      pos := pos + n;
    }

    /** jsonl_refill: one read(2), which may fail or come up short. */
    method Refill() returns (n: int)
      requires Valid()
      modifies this`pos, this`bufLen, this`eof, this`err, buf
      ensures Valid() && n >= -1
      ensures n == -1 ==> err
      ensures n == 0 ==> old(bufLen) == buf.Length || eof
      ensures n <= 0 ==> bufLen == old(bufLen) && pos == old(pos)
      ensures n > 0 ==> bufLen == old(bufLen) + n && pos == old(pos) + n && pos <= |file|
    {
      if bufLen >= buf.Length || eof { return 0; }
      if err { return -1; }
      if * {
        err := true;
        return -1;
      }
      if pos >= |file| {
        eof := true;
        return 0;
      }
      n :| 1 <= n <= buf.Length - bufLen && n <= |file| - pos;
      Append(n);
    }

    /** memchr for a newline in buf[from..bufLen]. */
    method FindNewline(from: nat) returns (at: nat)
      requires from <= bufLen <= buf.Length
      ensures at <= bufLen - from && NEWLINE !in buf[from..bufLen][..at]
      ensures at < bufLen - from ==> buf[from..bufLen][at] == NEWLINE
    {
      at := 0;
      while at < bufLen - from && buf[from + at] != NEWLINE
        invariant at <= bufLen - from && NEWLINE !in buf[from..bufLen][..at]
      {
        assert buf[from..bufLen][..at + 1] == buf[from..bufLen][..at] + [buf[from + at]];
        at := at + 1;
      }
    }

    /** Drops the buffered bytes up to and including the newline found. */
    method SkipPast(at: nat)
      requires Valid() && bufPos == 0 && pos <= |file| && at < bufLen
      requires buf[0..bufLen][at] == NEWLINE && NEWLINE !in buf[0..bufLen][..at]
      modifies this`bufLen, this`offset, buf
      ensures Valid() && offset == AfterLine(file, old(offset))
    {
      LineBuffered(file, offset, pos, at);
      assert buf[at + 1..bufLen] == buf[0..bufLen][at + 1..] == file[offset..pos][at + 1..];
      Shift(at + 1);
      bufLen := bufLen - (at + 1);
      offset := offset + at + 1;
    }

    /** jsonl_drain_oversize: called with a line longer than MAX_LINE in
        progress, moves past its newline or to the end of the file. */
    method DrainOversize() returns (ok: bool)
      requires Valid() && pos <= |file| && NEWLINE !in file[offset..pos]
      modifies this, buf
      ensures Valid() && buf == old(buf) && (!ok ==> err)
      ensures ok ==> offset == AfterLine(file, old(offset))
    {
      ghost var start := offset;
      offset := offset + (bufLen - bufPos);
      bufPos, bufLen := 0, 0;
      while !eof
        invariant Valid() && buf == old(buf) && bufPos == bufLen == 0 && start <= offset == pos <= |file|
        invariant NEWLINE !in file[start..offset]
        decreases |file| - offset
      {
        var n := Refill();
        if n < 0 { return false; }
        if n == 0 { break; }
        var at := FindNewline(0);
        assert buf[0..bufLen] == file[offset..pos];
        if at < bufLen {
          LineEndFrom(file, start, offset);
          SkipPast(at);
          return true;
        }
        assert buf[0..bufLen][..at] == file[offset..pos];
        NoneJoined(file, start, offset, pos);
        offset := pos;
        bufLen := 0;
      }
      NoneBuffered(file, start, offset);
      return true;
    }

    /** Hands out the line that ends at the newline found, whose byte it
        overwrites with a terminator. */
    method TakeLine(at: nat) returns (bytes: seq<Byte>)
      requires Valid() && pos <= |file| && at < bufLen - bufPos
      requires buf[bufPos..bufLen][at] == NEWLINE && NEWLINE !in buf[bufPos..bufLen][..at]
      modifies this`bufPos, this`offset, buf
      ensures Valid() && bytes == file[old(offset)..LineEnd(file, old(offset))]
      ensures offset == LineEnd(file, old(offset)) + 1 <= |file| && |bytes| == at
    {
      bytes := buf[bufPos..bufPos + at];
      assert bytes == buf[bufPos..bufLen][..at];
      LineBuffered(file, offset, pos, at);
      ghost var rest := buf[bufPos + at + 1..bufLen];
      assert rest == buf[bufPos..bufLen][at + 1..] == file[offset..pos][at + 1..];
      buf[bufPos + at] := 0;
      offset := offset + at + 1;
      bufPos := bufPos + at + 1;
      assert buf[bufPos..bufLen] == rest;
    }

    /** Makes room if the buffer is full, then reads more. */
    method Fetch() returns (n: int)
      requires Valid() && bufLen <= MAX_LINE
      modifies this`pos, this`buf, this`bufLen, this`eof, this`err, buf
      ensures Valid() && (buf == old(buf) || fresh(buf))
      ensures n >= -1 && (n == -1 ==> err) && (n == 0 ==> eof)
      ensures n <= 0 ==> pos == old(pos)
      ensures n > 0 ==> pos == old(pos) + n <= |file|
    {
      if bufLen == buf.Length {
        Grow(if buf.Length * 2 > MAX_LINE + 1 then MAX_LINE + 1 else buf.Length * 2);
      }
      n := Refill();
    }

    /** What the bytes already buffered decide, with the rest of an oversize
        line skipped. */
    method FromBuffer() returns (r: Option<ReadResult>)
      requires Valid()
      modifies this, buf
      ensures Valid() && buf == old(buf)
      ensures r == Some(IoError) ==> err
      ensures r.Some? && r != Some(IoError) ==> Next(file, old(offset)) == Step(r.value, offset)
      ensures r.None? ==> offset == old(offset) && pos == old(pos) && bufLen <= MAX_LINE
      ensures r.None? && pos >= |file| ==> Next(file, offset) == Step(End, offset)
    {
      var at := FindNewline(bufPos);
      if at < bufLen - bufPos {
        var bytes := TakeLine(at);
        return Some(Line(bytes));
      }
      assert buf[bufPos..bufLen][..at] == buf[bufPos..bufLen];
      Compact();
      if pos <= |file| { NoneBuffered(file, offset, pos); }
      if bufLen > MAX_LINE {
        var ok := DrainOversize();
        return Some(if ok then Oversize else IoError);
      }
      return None;
    }

    /** jsonl_read_line. Unless the read fails, what it returns and where it
        leaves the offset depend on the bytes of the file alone. */
    method ReadLine() returns (r: ReadResult)
      requires Valid()
      modifies this, buf
      ensures Valid() && (buf == old(buf) || fresh(buf))
      ensures r == IoError ==> err
      ensures r != IoError ==> Step(r, offset) == Next(file, old(offset)) && Delivers(file, old(offset), r, offset)
    {
      NextDelivers(file, offset);
      while true
        invariant Valid() && offset == old(offset) && (buf == old(buf) || fresh(buf))
        decreases |file| - pos
      {
        var decided := FromBuffer();
        if decided.Some? { return decided.value; }
        var n := Fetch();
        if n < 0 { return IoError; }
        if n == 0 { return End; }
      }
    }
  }

  lemma LineEndFrom(f: seq<Byte>, start: nat, mid: nat)
    requires start <= mid <= |f| && NEWLINE !in f[start..mid]
    ensures LineEnd(f, start) == LineEnd(f, mid)
  {
    var e := LineEnd(f, mid);
    forall i | start <= i < e ensures f[i] != NEWLINE {
      if i < mid { assert f[start..mid][i - start] == f[i]; }
    }
  }
}
