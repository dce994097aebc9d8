/** PlaybackResumption.kt: bringing a saved queue back after some of its tracks
    have left the phone. */
module QueueRestore {
  import opened Prelude
  import opened Permutations

  /** The ids that are still resident, in order. */
  function Alive(ids: seq<string>, resident: set<string>): seq<string> {
    if ids == [] then [] else
    var r := Alive(ids[..|ids| - 1], resident);
    if ids[|ids| - 1] in resident then r + [ids[|ids| - 1]] else r
  }

  /** Where they stood. */
  function Kept(ids: seq<string>, resident: set<string>): (r: seq<int>)
    ensures Within(r, |ids|) && (forall i, j :: 0 <= i < j < |r| ==> r[i] < r[j])
    ensures forall i :: i in r <==> 0 <= i < |ids| && ids[i] in resident
  {
    if ids == [] then [] else
    var n := |ids| - 1;
    var r := Kept(ids[..n], resident);
    if ids[n] in resident then r + [n] else r
  }

  /** The tracks a shuffle order plays, in playing order. */
  function Played(ids: seq<string>, order: seq<int>): (r: seq<string>)
    requires Within(order, |ids|)
    ensures |r| == |order|
  {
    if order == [] then [] else
    var n := |order| - 1;
    assert Within(order[..n], |ids|);
    Played(ids, order[..n]) + [ids[order[n]]]
  }

  lemma {:induction false} PlayedAt(ids: seq<string>, order: seq<int>, i: nat)
    requires Within(order, |ids|) && i < |order|
    ensures Played(ids, order)[i] == ids[order[i]]
  {
    if i < |order| - 1 { PlayedAt(ids, order[..|order| - 1], i); }
  }

  lemma {:induction false} PlayedLonger(front: seq<string>, id: string, order: seq<int>)
    requires Within(order, |front|)
    ensures Played(front + [id], order) == Played(front, order)
  {
    if order == [] {
    } else {
      PlayedLonger(front, id, order[..|order| - 1]);
    }
  }

  lemma {:induction false} AliveIsKept(ids: seq<string>, resident: set<string>)
    ensures Alive(ids, resident) == Played(ids, Kept(ids, resident))
  {
    if ids == [] {
    } else {
      var n := |ids| - 1;
      var front, kept := ids[..n], Kept(ids[..n], resident);
      AliveIsKept(front, resident);
      assert ids == front + [ids[n]];
      PlayedLonger(front, ids[n], kept);
      assert (kept + [n])[..|kept|] == kept;
    }
  }

  // ---- remapShuffleOrder ---------------------------------------------------

  /** The entries of a saved order that are kept. */
  function Surviving(order: seq<int>, kept: seq<int>): seq<int> {
    if order == [] then [] else
    var n := |order| - 1;
    var r := Surviving(order[..n], kept);
    if order[n] in kept then r + [order[n]] else r
  }

  lemma {:induction false} SurvivingMembers(order: seq<int>, kept: seq<int>)
    ensures forall x :: x in Surviving(order, kept) <==> x in order && x in kept
    ensures Distinct(order) ==> Distinct(Surviving(order, kept))
  {
    if order == [] {
    } else {
      var n := |order| - 1;
      SurvivingMembers(order[..n], kept);
      assert order == order[..n] + [order[n]];
    }
  }

  /** table[x] is x's place in kept, -1 when it has none. */
  ghost predicate Places(table: seq<int>, kept: seq<int>) {
    && (forall x :: 0 <= x < |table| ==> table[x] == -1 || (0 <= table[x] < |kept| && kept[table[x]] == x))
    && (forall i :: 0 <= i < |kept| ==> 0 <= kept[i] < |table| && table[kept[i]] == i)
  }

  function Renumbered(order: seq<int>, table: seq<int>): seq<int>
    requires Within(order, |table|)
  {
    if order == [] then [] else
    var n := |order| - 1;
    assert Within(order[..n], |table|);
    var r := Renumbered(order[..n], table);
    if table[order[n]] >= 0 then r + [table[order[n]]] else r
  }

  /** Renumbering keeps exactly the surviving entries, in order. */
  lemma {:induction false} RenumberedSurvives(order: seq<int>, table: seq<int>, kept: seq<int>)
    requires Within(order, |table|) && Places(table, kept)
    ensures Within(Renumbered(order, table), |kept|) && |Renumbered(order, table)| == |Surviving(order, kept)|
    ensures forall i :: 0 <= i < |Renumbered(order, table)| ==>
              kept[Renumbered(order, table)[i]] == Surviving(order, kept)[i]
  {
    if order == [] {
    } else {
      var n := |order| - 1;
      RenumberedSurvives(order[..n], table, kept);
      if table[order[n]] >= 0 { assert kept[table[order[n]]] in kept; }
    }
  }

  lemma RenumberedPermutes(order: seq<int>, table: seq<int>, kept: seq<int>)
    requires IsPermutation(order, |table|) && Places(table, kept)
    ensures IsPermutation(Renumbered(order, table), |kept|)
  {
    var r, s := Renumbered(order, table), Surviving(order, kept);
    RenumberedSurvives(order, table, kept);
    SurvivingMembers(order, kept);
    Onto(order, |table|);
    forall i | 0 <= i < |kept| ensures i in r {
      assert kept[i] in s;
      var j :| 0 <= j < |s| && s[j] == kept[i];
      assert kept[r[j]] == kept[i] && table[kept[r[j]]] == r[j];
    }
    FromOnto(r, |kept|);
  }

  method Remap(order: seq<int>, size: nat, kept: seq<int>) returns (r: Option<seq<int>>)
    requires Within(kept, size) && Distinct(kept)
    ensures r.Some? <==> size > 0 && IsPermutation(order, size)
    ensures r.Some? ==> IsPermutation(r.value, |kept|) && |Surviving(order, kept)| == |kept|
    ensures r.Some? ==> forall i :: 0 <= i < |kept| ==> kept[r.value[i]] == Surviving(order, kept)[i]
  {
    if |order| != size || size == 0 { return None; }
    var seen := new bool[size](_ => false);
    for i := 0 to size
      invariant Within(order[..i], size) && Distinct(order[..i])
      invariant forall x :: 0 <= x < size ==> (seen[x] <==> x in order[..i])
    {
      if order[i] < 0 || order[i] >= size || seen[order[i]] {
        assert order[i] in order[..i] || !Within(order, size);
        return None;
      }
      seen[order[i]] := true;
      assert order[..i + 1] == order[..i] + [order[i]];
    }
    assert order[..size] == order;
    var newIndexOf := new int[size](_ => -1);
    for i := 0 to |kept|
      invariant Places(newIndexOf[..], kept[..i])
    {
      assert forall j :: 0 <= j < i ==> kept[..i][j] == kept[j] && kept[j] != kept[i];
      newIndexOf[kept[i]] := i;
      assert kept[..i + 1] == kept[..i] + [kept[i]];
    }
    assert kept[..|kept|] == kept;
    var table := newIndexOf[..];
    RenumberedSurvives(order, table, kept);
    RenumberedPermutes(order, table, kept);
    return Some(Renumbered(order, table));
  }

  // ---- restore -------------------------------------------------------------

  datatype Saved = Saved(ids: seq<string>, current: int, order: seq<int>)
  datatype Restored = Restored(ids: seq<string>, start: nat, order: Option<seq<int>>)

  lemma {:induction false} PlayedAlive(ids: seq<string>, order: seq<int>, resident: set<string>)
    requires Within(order, |ids|)
    ensures var s := Surviving(order, Kept(ids, resident));
            Within(s, |ids|) && Alive(Played(ids, order), resident) == Played(ids, s)
  {
    if order == [] {
    } else {
      var n := |order| - 1;
      var played := Played(ids, order[..n]);
      PlayedAlive(ids, order[..n], resident);
      assert (played + [ids[order[n]]])[..n] == played;
      var s := Surviving(order[..n], Kept(ids, resident));
      assert (s + [order[n]])[..|s|] == s;
    }
  }

  /** The restored queue plays what the saved one would, minus what is gone. */
  lemma PlayOrderSurvives(saved: Saved, resident: set<string>, order: seq<int>)
    requires Within(saved.order, |saved.ids|)
    requires var kept := Kept(saved.ids, resident); var s := Surviving(saved.order, kept);
             |order| == |s| && Within(order, |kept|) && forall i :: 0 <= i < |s| ==> kept[order[i]] == s[i]
    ensures Within(order, |Alive(saved.ids, resident)|)
    ensures Played(Alive(saved.ids, resident), order) == Alive(Played(saved.ids, saved.order), resident)
  {
    var kept := Kept(saved.ids, resident);
    var s := Surviving(saved.order, kept);
    AliveIsKept(saved.ids, resident);
    PlayedAlive(saved.ids, saved.order, resident);
    var a, b := Played(Alive(saved.ids, resident), order), Played(saved.ids, s);
    forall i | 0 <= i < |order| ensures a[i] == b[i] {
      PlayedAt(Alive(saved.ids, resident), order, i);
      PlayedAt(saved.ids, kept, order[i]);
      PlayedAt(saved.ids, s, i);
    }
  }

  /** Where the restored queue starts: at the saved track, else at the next one
      still there, else at the beginning. */
  ghost predicate Starts(kept: seq<int>, current: int, start: nat) {
    && start < |kept|
    && (if exists i :: 0 <= i < |kept| && kept[i] >= current
        then kept[start] >= current && forall i :: 0 <= i < start ==> kept[i] < current
        else start == 0)
  }

  method Hydrate(ids: seq<string>, resident: set<string>) returns (kept: seq<int>, alive: seq<string>)
    ensures kept == Kept(ids, resident) && alive == Alive(ids, resident)
  {
    kept, alive := [], [];
    for i := 0 to |ids|
      invariant kept == Kept(ids[..i], resident) && alive == Alive(ids[..i], resident)
    {
      assert ids[..i + 1][..i] == ids[..i];
      if ids[i] in resident { kept, alive := kept + [i], alive + [ids[i]]; }
    }
    assert ids[..|ids|] == ids;
  }

  method StartIndex(kept: seq<int>, current: int) returns (start: nat)
    requires kept != [] && forall i, j :: 0 <= i < j < |kept| ==> kept[i] < kept[j]
    ensures Starts(kept, current, start)
    ensures current in kept ==> kept[start] == current
  {
    start := 0;
    while start < |kept| && kept[start] < current
      invariant start <= |kept| && forall i :: 0 <= i < start ==> kept[i] < current
    {
      start := start + 1;
    }
    if start == |kept| { start := 0; }
  }

  method Restore(saved: Saved, resident: set<string>) returns (r: Restored)
    ensures r.ids == Alive(saved.ids, resident)
    ensures r.ids != [] ==> Starts(Kept(saved.ids, resident), saved.current, r.start)
    ensures r.ids != [] && 0 <= saved.current < |saved.ids| && saved.ids[saved.current] in resident ==>
      r.start < |r.ids| && r.ids[r.start] == saved.ids[saved.current]
    ensures r.order.Some? <==> r.ids != [] && IsPermutation(saved.order, |saved.ids|)
    ensures r.order.Some? ==> IsPermutation(r.order.value, |r.ids|)
    ensures r.order.Some? ==> Played(r.ids, r.order.value) == Alive(Played(saved.ids, saved.order), resident)
  {
    var kept, ids := Hydrate(saved.ids, resident);
    AliveIsKept(saved.ids, resident);
    if ids == [] { return Restored([], 0, None); }
    var start := StartIndex(kept, saved.current);
    PlayedAt(saved.ids, kept, start);
    var order := Remap(saved.order, |saved.ids|, kept);
    if order.Some? { PlayOrderSurvives(saved, resident, order.value); }
    return Restored(ids, start, order);
  }
}
