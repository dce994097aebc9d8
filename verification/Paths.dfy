/** Library paths: <root>/archive/<tail> and <root>/resident/<tail>. */
module Paths {
  import opened Prelude

  /** The two directions rotate moves a file in. */
  datatype Direction = Promote | Demote

  function From(d: Direction): string { if d.Promote? then "archive" else "resident" }
  function To(d: Direction): string { if d.Promote? then "resident" else "archive" }
  function Reverse(d: Direction): Direction { if d.Promote? then Demote else Promote }

  /** <root>/<segment>/<tail>. */
  function At(root: string, segment: string, tail: string): string {
    root + "/" + segment + "/" + tail
  }

  /** rotate.c swap_segment: replaces the leading `from` segment of a path
      under the library root, or refuses. */
  function SwapSegment(root: string, cur: string, from: string, to: string): Option<string> {
    if !(root <= cur && |root| < |cur| && cur[|root|] == '/') then None else
    var rel := cur[|root| + 1..];
    if !(from <= rel && |from| < |rel| && rel[|from|] == '/') then None else
    Some(At(root, to, rel[|from| + 1..]))
  }

  function Swap(root: string, cur: string, d: Direction): Option<string> {
    SwapSegment(root, cur, From(d), To(d))
  }

  lemma SwapForm(root: string, cur: string, from: string, to: string)
    ensures SwapSegment(root, cur, from, to).Some? <==>
            exists tail :: cur == At(root, from, tail)
    ensures forall tail :: cur == At(root, from, tail) ==>
              SwapSegment(root, cur, from, to) == Some(At(root, to, tail))
  {
    forall tail | cur == At(root, from, tail)
      ensures SwapSegment(root, cur, from, to) == Some(At(root, to, tail))
    {
      var rel := from + "/" + tail;
      assert cur == root + ("/" + rel);
      assert cur[|root| + 1..] == rel;
      assert rel == from + ("/" + tail);
      assert rel[|from| + 1..] == tail;
    }
    if SwapSegment(root, cur, from, to).Some? {
      var rel := cur[|root| + 1..];
      var tail := rel[|from| + 1..];
      assert rel == from + "/" + tail;
      assert cur == root + "/" + rel;
      assert cur == At(root, from, tail);
    }
  }

  lemma SwapTail(root: string, cur: string, d: Direction) returns (tail: string)
    requires Swap(root, cur, d).Some?
    ensures cur == At(root, From(d), tail) && Swap(root, cur, d) == Some(At(root, To(d), tail))
  {
    SwapForm(root, cur, From(d), To(d));
    tail :| cur == At(root, From(d), tail);
  }

  /** The two trees are disjoint, and each path names one tail. */
  lemma TreesDisjoint(root: string, t: string, u: string)
    ensures At(root, "archive", t) != At(root, "resident", u)
  {
    assert At(root, "archive", t)[|root| + 1] == 'a';
    assert At(root, "resident", u)[|root| + 1] == 'r';
  }

  lemma TailUnique(root: string, segment: string, t: string, u: string)
    requires At(root, segment, t) == At(root, segment, u)
    ensures t == u
  {
    var n := |root + "/" + segment + "/"|;
    assert At(root, segment, t)[n..] == t && At(root, segment, u)[n..] == u;
  }

  /** What the moves rely on: a swap goes to the other tree, the opposite swap
      undoes it, and no path can be swapped both ways. */
  lemma SwapUndo(root: string, cur: string, d: Direction)
    requires Swap(root, cur, d).Some?
    ensures Swap(root, Swap(root, cur, d).value, Reverse(d)) == Some(cur)
    ensures Swap(root, Swap(root, cur, d).value, d) == None
    ensures Swap(root, cur, Reverse(d)) == None
    ensures Swap(root, cur, d).value != cur
  {
    SwapForm(root, cur, From(d), To(d));
    var tail :| cur == At(root, From(d), tail);
    var dst := At(root, To(d), tail);
    SwapForm(root, dst, To(d), From(d));
    SwapForm(root, dst, From(d), To(d));
    SwapForm(root, cur, To(d), From(d));
    forall t, u ensures At(root, From(d), t) != At(root, To(d), u) {
      TreesDisjoint(root, t, u);
      TreesDisjoint(root, u, t);
    }
  }
}
