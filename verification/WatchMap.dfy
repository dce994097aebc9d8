/** watch.c's map from inotify watch descriptors to directory paths: an
    open-addressing table with linear probing, growth, and deletion that
    re-inserts the rest of the cluster. */
module WatchMap {
  import opened Prelude

  /** wd == -1 marks an empty slot. */
  datatype Entry = Entry(wd: int, path: string)

  const EMPTY := Entry(-1, "")

  /** (unsigned) wd * 2654435761u, modulo the capacity. */
  function Hash(wd: int, cap: nat): (h: nat)
    requires cap > 0
    ensures h < cap
  {
    ((wd * 2654435761) % 0x1_0000_0000) % cap
  }

  function Next(i: nat, cap: nat): (n: nat)
    requires i < cap
    ensures n == if i + 1 == cap then 0 else i + 1
  {
    (i + 1) % cap
  }

  /** Steps from i to j going up and around. */
  function Dist(i: nat, j: nat, cap: nat): nat
    requires i < cap && j < cap
  {
    if i <= j then j - i else j + cap - i
  }

  /** j is on the probe path that starts at h and ends at i. */
  predicate OnPath(h: int, j: int, i: int) {
    if h <= i then h <= j <= i else j >= h || j <= i
  }

  predicate Full(s: seq<Entry>, i: int) { 0 <= i < |s| && s[i].wd >= 0 }

  function Count(s: seq<Entry>): nat {
    if s == [] then 0 else Count(s[..|s| - 1]) + if s[|s| - 1].wd >= 0 then 1 else 0
  }

  lemma {:induction false} CountUpdate(s: seq<Entry>, i: nat, e: Entry)
    requires i < |s|
    ensures Count(s[i := e]) == Count(s) - (if Full(s, i) then 1 else 0) + if e.wd >= 0 then 1 else 0
  {
    var t, n := s[i := e], |s| - 1;
    if i < n {
      assert t[..n] == s[..n][i := e];
      CountUpdate(s[..n], i, e);
    } else {
      assert t[..n] == s[..n];
    }
  }

  lemma {:induction false} EmptySlot(s: seq<Entry>) returns (e: nat)
    requires Count(s) < |s|
    ensures e < |s| && !Full(s, e)
  {
    if s[|s| - 1].wd < 0 {
      e := |s| - 1;
    } else {
      e := EmptySlot(s[..|s| - 1]);
    }
  }

  ghost predicate HasKey(s: seq<Entry>, k: int) {
    exists i :: 0 <= i < |s| && s[i].wd == k
  }

  /** The full slots hold exactly the pairs of m, one slot each. */
  ghost predicate Models(s: seq<Entry>, m: map<int, string>) {
    && (forall i :: Full(s, i) ==> s[i].wd in m && m[s[i].wd] == s[i].path)
    && (forall k :: k in m ==> k >= 0 && HasKey(s, k))
    && (forall i, j :: Full(s, i) && Full(s, j) && s[i].wd == s[j].wd ==> i == j)
  }

  lemma ModelsUnique(s: seq<Entry>, m: map<int, string>, n: map<int, string>)
    requires Models(s, m) && Models(s, n)
    ensures m == n
  {
    forall k ensures k in m <==> k in n {
      if k in m { var i :| 0 <= i < |s| && s[i].wd == k; assert Full(s, i); }
      if k in n { var i :| 0 <= i < |s| && s[i].wd == k; assert Full(s, i); }
    }
    forall k | k in m ensures m[k] == n[k] {
      var i :| 0 <= i < |s| && s[i].wd == k;
      assert Full(s, i);
    }
  }

  lemma ModelsInsert(s: seq<Entry>, m: map<int, string>, i: nat, k: int, p: string)
    requires Models(s, m) && i < |s| && !Full(s, i) && k >= 0 && k !in m
    ensures Models(s[i := Entry(k, p)], m[k := p])
  {
    var t, n := s[i := Entry(k, p)], m[k := p];
    forall x | x in n ensures x >= 0 && HasKey(t, x) {
      if x == k {
        assert t[i].wd == k;
      } else {
        var j :| 0 <= j < |s| && s[j].wd == x;
        assert t[j].wd == x;
      }
    }
    forall j | Full(t, j) ensures t[j].wd in n && n[t[j].wd] == t[j].path && (j != i ==> Full(s, j)) {
      if j != i { assert Full(s, j); }
    }
  }

  lemma ModelsRemove(s: seq<Entry>, m: map<int, string>, i: nat)
    requires Models(s, m) && Full(s, i)
    ensures Models(s[i := EMPTY], m - {s[i].wd})
  {
    var t, n := s[i := EMPTY], m - {s[i].wd};
    forall x | x in n ensures x >= 0 && HasKey(t, x) {
      var j :| 0 <= j < |s| && s[j].wd == x;
      assert t[j].wd == x;
    }
    forall j | Full(t, j) ensures t[j].wd in n && n[t[j].wd] == t[j].path && Full(s, j) && j != i {
      assert Full(s, j);
    }
  }

  lemma ModelsReplace(s: seq<Entry>, m: map<int, string>, i: nat, p: string)
    requires Models(s, m) && Full(s, i)
    ensures Models(s[i := Entry(s[i].wd, p)], m[s[i].wd := p])
  {
    var t, n := s[i := Entry(s[i].wd, p)], m[s[i].wd := p];
    forall x | x in n ensures x >= 0 && HasKey(t, x) {
      if x in m {
        var j :| 0 <= j < |s| && s[j].wd == x;
        assert t[j].wd == x;
      }
    }
    forall j | Full(t, j) ensures t[j].wd in n && n[t[j].wd] == t[j].path && Full(s, j) {
      assert Full(s, j);
    }
  }

  /** Linear probing finds every key: no empty slot between where a key hashes
      to and where it is. */
  ghost predicate Reach(s: seq<Entry>) {
    forall i, j :: Full(s, i) && 0 <= j < |s| && OnPath(Hash(s[i].wd, |s|), j, i) ==> Full(s, j)
  }

  /** slot is the first empty one on the probe path of k. */
  ghost predicate FirstEmpty(s: seq<Entry>, k: int, slot: nat) {
    && slot < |s| && !Full(s, slot)
    && forall j :: 0 <= j < |s| && OnPath(Hash(k, |s|), j, slot) && j != slot ==> Full(s, j)
  }

  lemma ReachInsert(s: seq<Entry>, k: int, p: string, slot: nat)
    requires Reach(s) && FirstEmpty(s, k, slot) && k >= 0
    ensures Reach(s[slot := Entry(k, p)])
  {
    var t := s[slot := Entry(k, p)];
    forall i, j | Full(t, i) && 0 <= j < |t| && OnPath(Hash(t[i].wd, |t|), j, i) ensures Full(t, j) {
      if i != slot { assert Full(s, i); }
      if j != slot { assert Full(s, j); }
    }
  }

  /** A table of n entries that holds m. */
  ghost predicate Table(s: seq<Entry>, m: map<int, string>, n: nat) {
    |s| % 2 == 0 && n == Count(s) && 2 * n <= |s| && Models(s, m)
  }

  lemma Replaced(s: seq<Entry>, m: map<int, string>, n: nat, i: nat, p: string)
    requires Table(s, m, n) && Full(s, i)
    ensures var t := s[i := Entry(s[i].wd, p)];
            Table(t, m[s[i].wd := p], n) && (Reach(s) ==> Reach(t))
  {
    ModelsReplace(s, m, i, p);
    CountUpdate(s, i, Entry(s[i].wd, p));
    ReachReplace(s, i, p);
  }

  lemma Added(s: seq<Entry>, m: map<int, string>, n: nat, i: nat, k: int, p: string)
    requires Table(s, m, n) && 2 * n < |s| && FirstEmpty(s, k, i) && k >= 0 && k !in m
    ensures var t := s[i := Entry(k, p)];
            Table(t, m[k := p], n + 1) && (Reach(s) ==> Reach(t))
  {
    AddedTable(s, m, n, i, k, p);
    if Reach(s) { ReachInsert(s, k, p, i); }
  }

  lemma AddedTable(s: seq<Entry>, m: map<int, string>, n: nat, i: nat, k: int, p: string)
    requires Table(s, m, n) && 2 * n < |s| && i < |s| && !Full(s, i) && k >= 0 && k !in m
    ensures Table(s[i := Entry(k, p)], m[k := p], n + 1)
  {
    ModelsInsert(s, m, i, k, p);
    CountUpdate(s, i, Entry(k, p));
  }

  lemma Removed(s: seq<Entry>, m: map<int, string>, n: nat, i: nat)
    requires Table(s, m, n) && Full(s, i)
    ensures n > 0 && Table(s[i := EMPTY], m - {s[i].wd}, n - 1)
  {
    ModelsRemove(s, m, i);
    CountUpdate(s, i, EMPTY);
  }

  class WdMap {
    var slots: array<Entry>
    var count: nat
    ghost var contents: map<int, string>

    /** The representation, except that keys may be out of probing's reach. */
    ghost predicate Consistent()
      reads this, slots
    {
      Table(slots[..], contents, count)
    }

    ghost predicate Valid()
      reads this, slots
    {
      Consistent() && Reach(slots[..])
    }

    constructor ()
      ensures Valid() && contents == map[] && fresh(slots)
    {
      slots := new Entry[0];
      count := 0;
      contents := map[];
    }

    /** Stores an entry in the first empty slot of its probe path. */
    static method Place(table: array<Entry>, e: Entry) returns (idx: nat)
      requires Count(table[..]) < table.Length
      modifies table
      ensures FirstEmpty(old(table[..]), e.wd, idx) && table[..] == old(table[..])[idx := e]
    {
      var cap := table.Length;
      ghost var hole := EmptySlot(table[..]);
      idx := Hash(e.wd, cap);
      while table[idx].wd >= 0
        invariant idx < cap && table[..] == old(table[..])
        invariant forall j :: 0 <= j < cap && OnPath(Hash(e.wd, cap), j, idx) && j != idx ==> Full(table[..], j)
        decreases Dist(idx, hole, cap)
      {
        assert Full(table[..], idx);
        idx := Next(idx, cap);
      }
      table[idx] := e;
    }

    /** The loop of wdm_grow. */
    static method PlaceAll(was: array<Entry>, table: array<Entry>, ghost all: map<int, string>) returns (n: nat)
      requires was != table && was.Length < table.Length && Models(was[..], all)
      requires Count(table[..]) == 0 && Models(table[..], map[]) && Reach(table[..])
      modifies table
      ensures Grown(was[..], table[..], all) && n == Count(table[..])
    {
      ghost var m: map<int, string> := map[];
      n := 0;
      for i := 0 to was.Length
        invariant n <= i && n == Count(table[..]) && was[..] == old(was[..])
        invariant Grown(was[..i], table[..], m)
      {
        ghost var before := table[..];
        assert was[..i + 1] == was[..i] + [was[i]] <= was[..];
        if was[i].wd >= 0 {
          var idx := Place(table, was[i]);
          GrownOn(was[..i], before, m, was[i], idx, was[..], all);
          m := m[was[i].wd := was[i].path];
          n := n + 1;
        } else {
          GrownPast(was[..i], before, m, was[i], was[..], all);
        }
      }
      assert was[..was.Length] == was[..];
      ModelsUnique(was[..], m, all);
    }

    /** wdm_grow: a table of twice the size with every entry placed anew. */
    method Grow()
      requires Consistent()
      modifies this
      ensures Valid() && contents == old(contents) && count == old(count) && fresh(slots)
      ensures slots.Length == if old(slots.Length) == 0 then 64 else 2 * old(slots.Length)
    {
      var table := new Entry[if slots.Length == 0 then 64 else 2 * slots.Length](_ => EMPTY);
      AllEmpty(table[..]);
      ghost var was, n := slots[..], count;
      count := PlaceAll(slots, table, contents);
      TableGrown(was, table[..], contents, n);
      slots := table;
    }

    /** wdm_set. While a removal is re-inserting its cluster it runs on a table
        in which some keys are out of reach, but never the key it is given. */
    method Set(wd: int, path: string) returns (ghost at: nat)
      requires Consistent() && wd >= 0 && (Reach(slots[..]) || wd !in contents)
      modifies this, slots
      ensures Consistent() && contents == old(contents)[wd := path]
      ensures old(Valid()) ==> Valid()
      ensures if 2 * old(count) < old(slots.Length) then slots == old(slots) else fresh(slots) && Valid()
      ensures 2 * old(count) < old(slots.Length) && wd !in old(contents) ==>
                FirstEmpty(old(slots[..]), wd, at) && slots[..] == old(slots[..])[at := Entry(wd, path)]
    {
      if slots.Length == 0 || count * 2 >= slots.Length {
        Grow();
      }
      at := Insert(wd, path);
    }

    /** The probing part of wdm_set. */
    method Insert(wd: int, path: string) returns (ghost at: nat)
      requires Consistent() && wd >= 0 && 2 * count < slots.Length && (Reach(slots[..]) || wd !in contents)
      modifies this`count, this`contents, slots
      ensures Consistent() && contents == old(contents)[wd := path]
      ensures old(Reach(slots[..])) ==> Reach(slots[..])
      ensures wd !in old(contents) ==>
                FirstEmpty(old(slots[..]), wd, at) && slots[..] == old(slots[..])[at := Entry(wd, path)]
    {
      var cap := slots.Length;
      ghost var s := slots[..];
      ghost var hole := EmptySlot(s);
      var idx: nat := Hash(wd, cap);
      while slots[idx].wd >= 0
        invariant idx < cap && slots[..] == s && unchanged(this) && Probed(s, wd, idx)
        decreases Dist(idx, hole, cap)
      {
        assert Full(s, idx);
        if slots[idx].wd == wd {
          Replaced(s, contents, count, idx, path);
          slots[idx] := Entry(wd, path);
          assert slots[..] == s[idx := Entry(wd, path)];
          contents := contents[wd := path];
          assert wd in old(contents);
          return 0;
        }
        ProbeOn(s, wd, idx);
        idx := Next(idx, cap);
      }
      if Reach(s) { StopsAtKey(s, contents, wd, idx); }
      Added(s, contents, count, idx, wd, path);
      slots[idx] := Entry(wd, path);
      assert slots[..] == s[idx := Entry(wd, path)];
      contents := contents[wd := path];
      count := count + 1;
      at := idx;
    }

    /** wdm_get's loop, and the first loop of wdm_remove. */
    method Find(wd: int) returns (found: bool, idx: nat)
      requires Valid() && slots.Length > 0
      ensures found <==> wd in contents
      ensures found ==> idx < slots.Length && wd >= 0 && slots[idx].wd == wd
    {
      var cap := slots.Length;
      ghost var s := slots[..];
      ghost var hole := EmptySlot(s);
      idx := Hash(wd, cap);
      ghost var steps := Dist(idx, hole, cap);
      for probes := 0 to cap
        invariant idx < cap && probes + Dist(idx, hole, cap) == steps && Probed(s, wd, idx)
      {
        assert s[idx] == slots[idx];
        if slots[idx].wd < 0 {
          StopsAtKey(s, contents, wd, idx);
          return false, 0;
        }
        if slots[idx].wd == wd { return true, idx; }
        ProbeOn(s, wd, idx);
        idx := Next(idx, cap);
      }
      assert false;
    }

    method Get(wd: int) returns (path: Option<string>)
      requires Valid()
      ensures path == if wd in contents then Some(contents[wd]) else None
    {
      if slots.Length == 0 { return None; }
      var found, idx := Find(wd);
      if found {
        assert Full(slots[..], idx);
        return Some(slots[idx].path);
      }
      return None;
    }

    /** wdm_remove: frees the slot, then takes out and sets again every entry
        up to the next empty slot. It never grows the table. */
    method Remove(wd: int)
      requires Valid()
      modifies this, slots
      ensures Valid() && slots == old(slots) && contents == old(contents) - {wd}
    {
      if slots.Length == 0 { return; }
      var found, idx := Find(wd);
      if !found { return; }
      var cap := slots.Length;
      ghost var end := EmptySlot(slots[..]);
      ghost var s := slots[..];
      Removed(s, contents, count, idx);
      slots[idx] := EMPTY;
      assert slots[..] == s[idx := EMPTY];
      contents := contents - {wd};
      count := count - 1;
      HoleOpens(s, idx, end);
      Reinsert(idx, end);
    }

    /** The re-insert loop of wdm_remove. */
    method Reinsert(hole: nat, ghost end: nat)
      requires Consistent() && hole < slots.Length && 2 * count + 2 <= slots.Length
      requires Healing(slots[..], hole, Next(hole, slots.Length), end)
      modifies this, slots
      ensures Valid() && slots == old(slots) && contents == old(contents)
    {
      var cap := slots.Length;
      var next: nat := Next(hole, cap);
      while slots[next].wd >= 0
        invariant slots == old(slots) && contents == old(contents) && count == old(count) && Consistent()
        invariant next < cap && Healing(slots[..], hole, next, end)
        decreases Dist(next, end, cap)
      {
        SetAgain(next, hole, end);
        next := Next(next, cap);
      }
      Healed(slots[..], hole, next, end);
    }

    /** Takes out the entry at next and sets it again. */
    method SetAgain(next: nat, ghost hole: nat, ghost end: nat)
      requires Consistent() && Full(slots[..], next) && 2 * count + 2 <= slots.Length
      requires Healing(slots[..], hole, next, end)
      modifies this, slots
      ensures Consistent() && slots == old(slots) && contents == old(contents) && count == old(count) && next != end
      ensures Healing(slots[..], hole, Next(next, slots.Length), end)
    {
      ghost var s := slots[..];
      var e := slots[next];
      Removed(s, contents, count, next);
      slots[next] := EMPTY;
      ghost var t := slots[..];
      assert t == s[next := EMPTY];
      contents := contents - {e.wd};
      count := count - 1;
      ghost var at := Set(e.wd, e.path);
      assert contents == old(contents);
      Landed(s, t, hole, next, end, at);
      SameCount(slots[..], contents, count, s, old(count));
    }
  }

  /** The table's count is the number of its pairs. */
  lemma {:induction false} CountIsSize(s: seq<Entry>, m: map<int, string>)
    requires Models(s, m)
    ensures Count(s) == |m|
  {
    if s == [] {
      assert m == map[] by { forall k ensures k !in m { assert k in m ==> HasKey(s, k); } }
    } else {
      var e, front := s[|s| - 1], s[..|s| - 1];
      assert s == front + [e];
      var m' := if e.wd >= 0 then m - {e.wd} else m;
      ModelsFront(s, m, front, m');
      CountIsSize(front, m');
      if e.wd >= 0 { assert Full(s, |s| - 1) && m'.Keys == m.Keys - {e.wd}; }
    }
  }

  lemma ModelsFront(s: seq<Entry>, m: map<int, string>, front: seq<Entry>, m': map<int, string>)
    requires Models(s, m) && s != [] && front == s[..|s| - 1]
    requires m' == if s[|s| - 1].wd >= 0 then m - {s[|s| - 1].wd} else m
    ensures Models(front, m')
  {
    var n := |s| - 1;
    forall k | k in m' ensures k >= 0 && HasKey(front, k) {
      var j :| 0 <= j < |s| && s[j].wd == k;
      assert Full(s, j);
      assert front[j].wd == k;
    }
    forall i | Full(front, i) ensures front[i].wd in m' && m'[front[i].wd] == front[i].path && Full(s, i) {
      assert Full(s, i);
      assert Full(s, n) ==> s[i].wd != s[n].wd;
    }
  }

  lemma SameCount(s: seq<Entry>, m: map<int, string>, n: nat, t: seq<Entry>, k: nat)
    requires Table(s, m, n) && Table(t, m, k)
    ensures n == k
  {
    CountIsSize(s, m);
    CountIsSize(t, m);
  }

  /** Slots i with from <= i < to, going up and around. */
  predicate Within(i: int, from: int, to: int) {
    if from <= to then from <= i < to else i >= from || i < to
  }

  /** Entries from next up to end may have lost their way through the slots
      from hole up to next; every other entry is in reach. */
  ghost predicate Healing(s: seq<Entry>, hole: nat, next: nat, end: nat) {
    && hole < |s| && next < |s| && end < |s| && hole != next && hole != end && !Full(s, end)
    && OnPath(hole, next, end)
    && forall i, j :: Full(s, i) && 0 <= j < |s| && OnPath(Hash(s[i].wd, |s|), j, i) ==>
         Full(s, j) || (Within(i, next, end) && Within(j, hole, next))
  }

  lemma HoleOpens(s: seq<Entry>, hole: nat, end: nat)
    requires Reach(s) && Full(s, hole) && end < |s| && !Full(s, end)
    ensures Healing(s[hole := EMPTY], hole, Next(hole, |s|), end)
  {
    var t, next := s[hole := EMPTY], Next(hole, |s|);
    forall i, j | Full(t, i) && 0 <= j < |t| && OnPath(Hash(t[i].wd, |t|), j, i)
      ensures Full(t, j) || (Within(i, next, end) && Within(j, hole, next))
    {
      assert Full(s, i) && Full(s, j);
    }
  }

  /** No re-insert lands past the slot its entry came from, so the entry is
      in reach again and the healed part grows by one slot. */
  lemma Landed(s: seq<Entry>, t: seq<Entry>, hole: nat, next: nat, end: nat, at: nat)
    requires Healing(s, hole, next, end) && Full(s, next) && t == s[next := EMPTY]
    requires FirstEmpty(t, s[next].wd, at)
    ensures OnPath(Hash(s[next].wd, |s|), at, next) && at != end
    ensures Healing(t[at := s[next]], hole, Next(next, |s|), end)
  {
    var u, next' := t[at := s[next]], Next(next, |s|);
    var h := Hash(s[next].wd, |s|);
    assert !Full(t, next);
    assert !OnPath(h, end, next);
    forall i, j | Full(u, i) && 0 <= j < |u| && OnPath(Hash(u[i].wd, |u|), j, i)
      ensures Full(u, j) || (Within(i, next', end) && Within(j, hole, next'))
    {
      if i != at {
        assert Full(s, i) && i != next;
        if j != at && j != next {
          assert Full(s, j) || (Within(i, next, end) && Within(j, hole, next));
        }
        if j == next {
          assert Within(i, next, end) || !OnPath(Hash(s[i].wd, |s|), end, i);
        }
      } else if j != at {
        assert Full(t, j);
      }
    }
  }

  lemma Healed(s: seq<Entry>, hole: nat, next: nat, end: nat)
    requires Healing(s, hole, next, end) && !Full(s, next)
    ensures Reach(s)
  {
    forall i, j | Full(s, i) && 0 <= j < |s| && OnPath(Hash(s[i].wd, |s|), j, i) ensures Full(s, j) {
      if !Full(s, j) {
        assert OnPath(Hash(s[i].wd, |s|), next, i);
        assert false;
      }
    }
  }

  lemma ReachReplace(s: seq<Entry>, i: nat, p: string)
    requires Full(s, i)
    ensures Reach(s) ==> Reach(s[i := Entry(s[i].wd, p)])
  {
    var t := s[i := Entry(s[i].wd, p)];
    if Reach(s) {
      forall k, j | Full(t, k) && 0 <= j < |t| && OnPath(Hash(t[k].wd, |t|), j, k) ensures Full(t, j) {
        assert Full(s, k) && Full(s, j);
      }
    }
  }

  /** Every slot probed before idx is full and holds another key. */
  ghost predicate Probed(s: seq<Entry>, k: int, idx: nat) {
    && idx < |s|
    && forall j :: 0 <= j < |s| && OnPath(Hash(k, |s|), j, idx) && j != idx ==> Full(s, j) && s[j].wd != k
  }

  lemma ProbeOn(s: seq<Entry>, k: int, idx: nat)
    requires Probed(s, k, idx) && Full(s, idx) && s[idx].wd != k
    requires exists e :: 0 <= e < |s| && !Full(s, e)
    ensures Probed(s, k, Next(idx, |s|))
  {
    var e :| 0 <= e < |s| && !Full(s, e);
  }

  /** A key that is in the table is on its own probe path before any empty
      slot. */
  lemma StopsAtKey(s: seq<Entry>, m: map<int, string>, k: int, idx: nat)
    requires Models(s, m) && Reach(s) && Probed(s, k, idx) && !Full(s, idx)
    ensures k !in m
  {
    if k in m {
      var i :| 0 <= i < |s| && s[i].wd == k;
      assert Full(s, i) && !Full(s, idx);
    }
  }

  /** Both tables hold m, and m is found in the second by probing. */
  ghost predicate Grown(s: seq<Entry>, t: seq<Entry>, m: map<int, string>) {
    Models(s, m) && Models(t, m) && Reach(t) && Count(s) == Count(t)
  }

  lemma TableGrown(s: seq<Entry>, t: seq<Entry>, m: map<int, string>, n: nat)
    requires Table(s, m, n) && Grown(s, t, m) && |t| == if |s| == 0 then 64 else 2 * |s|
    ensures Table(t, m, n) && Reach(t)
  {}

  lemma CountPrefix(s: seq<Entry>, e: Entry)
    ensures Count(s + [e]) == Count(s) + if e.wd >= 0 then 1 else 0
  {
    assert (s + [e])[..|s|] == s;
  }

  lemma {:induction false} AllEmpty(s: seq<Entry>)
    requires forall i :: 0 <= i < |s| ==> s[i] == EMPTY
    ensures Count(s) == 0 && Models(s, map[]) && Reach(s)
  {
    if s == [] {
    } else {
      AllEmpty(s[..|s| - 1]);
    }
  }

  /** The pairs of a longer prefix. */
  lemma ModelsPrefix(s: seq<Entry>, m: map<int, string>, e: Entry, whole: seq<Entry>, all: map<int, string>)
    requires Models(s, m) && Models(whole, all) && s + [e] <= whole
    ensures if e.wd >= 0 then e.wd !in m && Models(s + [e], m[e.wd := e.path]) else Models(s + [e], m)
  {
    var t := s + [e];
    assert forall i :: 0 <= i < |t| ==> t[i] == whole[i];
    forall i | Full(t, i) ensures Full(whole, i) && whole[i] == t[i] {}
    if e.wd >= 0 {
      forall i | 0 <= i < |s| ensures s[i].wd != e.wd {
        assert s[i] == t[i] && (Full(t, i) ==> Full(whole, i)) && Full(whole, |s|);
      }
    }
    var n := if e.wd >= 0 then m[e.wd := e.path] else m;
    forall x | x in n ensures x >= 0 && HasKey(t, x) {
      if x in m {
        var j :| 0 <= j < |s| && s[j].wd == x;
        assert t[j].wd == x;
      } else {
        assert t[|s|].wd == x;
      }
    }
    forall i | Full(t, i) ensures t[i].wd in n && n[t[i].wd] == t[i].path && Full(whole, i) {
      if i < |s| { assert Full(s, i); }
    }
  }

  /** One more entry has been placed. */
  lemma GrownOn(s: seq<Entry>, t: seq<Entry>, m: map<int, string>, e: Entry, idx: nat, whole: seq<Entry>,
                all: map<int, string>)
    requires Grown(s, t, m) && Models(whole, all) && s + [e] <= whole && e.wd >= 0 && FirstEmpty(t, e.wd, idx)
    ensures Grown(s + [e], t[idx := e], m[e.wd := e.path]) && Count(t[idx := e]) == Count(t) + 1
  {
    ModelsPrefix(s, m, e, whole, all);
    CountPrefix(s, e);
    CountUpdate(t, idx, e);
    ModelsInsert(t, m, idx, e.wd, e.path);
    ReachInsert(t, e.wd, e.path, idx);
  }

  /** An empty slot has been passed over. */
  lemma GrownPast(s: seq<Entry>, t: seq<Entry>, m: map<int, string>, e: Entry, whole: seq<Entry>, all: map<int, string>)
    requires Grown(s, t, m) && Models(whole, all) && s + [e] <= whole && e.wd < 0
    ensures Grown(s + [e], t, m)
  {
    ModelsPrefix(s, m, e, whole, all);
    CountPrefix(s, e);
  }

  datatype Op = SetOp(key: nat, path: string) | GetOp(wd: int) | RemoveOp(wd: int)

  /** The same operations on a plain map: the map and the answers of the gets. */
  function OnMap(ops: seq<Op>): (map<int, string>, seq<Option<string>>) {
    if ops == [] then (map[], []) else
    var (m, answers) := OnMap(ops[..|ops| - 1]);
    match ops[|ops| - 1]
    case SetOp(wd, path) => (m[wd := path], answers)
    case GetOp(wd) => (m, answers + [if wd in m then Some(m[wd]) else None])
    case RemoveOp(wd) => (m - {wd}, answers)
  }

  /** Any sequence of operations on a new table answers as a plain map does. */
  method RunOps(ops: seq<Op>) returns (answers: seq<Option<string>>)
    ensures answers == OnMap(ops).1
  {
    var t := new WdMap();
    answers := [];
    for i := 0 to |ops|
      invariant t.Valid() && fresh(t) && fresh(t.slots)
      invariant (t.contents, answers) == OnMap(ops[..i])
    {
      assert ops[..i + 1][..i] == ops[..i];
      match ops[i] {
        case SetOp(wd, path) => ghost var _ := t.Set(wd, path);
        case RemoveOp(wd) => t.Remove(wd);
        case GetOp(wd) =>
          var answer := t.Get(wd);
          answers := answers + [answer];
      }
    }
    assert ops[..|ops|] == ops;
  }
}
