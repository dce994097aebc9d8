/** The upsert of ingest.c's likes and pins: last writer wins, keyed on the
    event's timestamp, an equal timestamp overwriting. */
module Lww {
  import opened Prelude

  datatype Row<V> = Row(value: V, ts: int)
  datatype Event<K, V> = Event(key: K, value: V, ts: int)

  /** INSERT ... ON CONFLICT DO UPDATE ... WHERE excluded.ts >= ts. */
  function Upsert<K, V>(m: map<K, Row<V>>, e: Event<K, V>): map<K, Row<V>> {
    if e.key in m && e.ts < m[e.key].ts then m else m[e.key := Row(e.value, e.ts)]
  }

  function Apply<K, V>(m: map<K, Row<V>>, es: seq<Event<K, V>>): map<K, Row<V>> {
    if es == [] then m else Upsert(Apply(m, es[..|es| - 1]), es[|es| - 1])
  }

  method IngestAll<K(==), V>(m: map<K, Row<V>>, es: seq<Event<K, V>>) returns (r: map<K, Row<V>>)
    ensures r == Apply(m, es)
  {
    r := m;
    for i := 0 to |es|
      invariant r == Apply(m, es[..i])
    {
      assert es[..i + 1][..i] == es[..i];
      if es[i].key !in r || es[i].ts >= r[es[i].key].ts {
        r := r[es[i].key := Row(es[i].value, es[i].ts)];
      }
    }
    assert es[..|es|] == es;
  }

  // ---- one key -------------------------------------------------------------

  function Get<K, V>(m: map<K, Row<V>>, k: K): Option<Row<V>> { if k in m then Some(m[k]) else None }

  /** No event for k is newer than t, nor is the row. */
  ghost predicate Bounded<K, V>(o: Option<Row<V>>, es: seq<Event<K, V>>, k: K, t: int) {
    (o.Some? ==> o.value.ts <= t) && forall i :: 0 <= i < |es| && es[i].key == k ==> es[i].ts <= t
  }

  /** Position of the last event for k at t, or -1. */
  function LastAt<K(==), V>(es: seq<Event<K, V>>, k: K, t: int): (i: int)
    ensures -1 <= i < |es|
    ensures i >= 0 ==> es[i].key == k && es[i].ts == t
    ensures forall j :: i < j < |es| ==> !(es[j].key == k && es[j].ts == t)
  {
    if es == [] then -1
    else if es[|es| - 1].key == k && es[|es| - 1].ts == t then |es| - 1
    else LastAt(es[..|es| - 1], k, t)
  }

  /** At a bound some event or the row attains, the last such event wins, and
      the row stands if there is none. */
  lemma {:induction false} Winner<K, V>(m: map<K, Row<V>>, es: seq<Event<K, V>>, k: K, t: int)
    requires Bounded(Get(m, k), es, k, t)
    ensures LastAt(es, k, t) >= 0 ==> Get(Apply(m, es), k) == Some(Row(es[LastAt(es, k, t)].value, t))
    ensures LastAt(es, k, t) < 0 && Get(m, k).Some? && m[k].ts == t ==> Get(Apply(m, es), k) == Get(m, k)
    ensures Get(Apply(m, es), k).Some? ==> Apply(m, es)[k].ts <= t
  {
    if es == [] {
    } else {
      var front := es[..|es| - 1];
      Winner(m, front, k, t);
    }
  }

  /** The newest timestamp of the row and the events, if there is any. */
  function Newest<K(==), V>(m: map<K, Row<V>>, es: seq<Event<K, V>>, k: K): (t: Option<int>)
    ensures t.None? ==> k !in m && forall i :: 0 <= i < |es| ==> es[i].key != k
    ensures t.Some? ==> Bounded(Get(m, k), es, k, t.value)
    ensures t.Some? ==> LastAt(es, k, t.value) >= 0 || (k in m && m[k].ts == t.value)
  {
    if es == [] then (if k in m then Some(m[k].ts) else None) else
    var u, e := Newest(m, es[..|es| - 1], k), es[|es| - 1];
    if e.key == k && (u.None? || e.ts >= u.value) then Some(e.ts) else u
  }

  lemma {:induction false} UntouchedKey<K, V>(m: map<K, Row<V>>, es: seq<Event<K, V>>, k: K)
    requires k !in m && forall i :: 0 <= i < |es| ==> es[i].key != k
    ensures k !in Apply(m, es)
  {
    if es == [] {
    } else {
      UntouchedKey(m, es[..|es| - 1], k);
    }
  }

  /** Replaying all events on top of their own result changes nothing, with
      timestamp ties and all. */
  lemma ReplayChangesNothing<K, V>(m: map<K, Row<V>>, es: seq<Event<K, V>>)
    ensures Apply(Apply(m, es), es) == Apply(m, es)
  {
    var r := Apply(m, es);
    forall k: K ensures Get(Apply(r, es), k) == Get(r, k) {
      var t := Newest(m, es, k);
      if t.None? {
        UntouchedKey(m, es, k);
        UntouchedKey(r, es, k);
      } else {
        Winner(m, es, k, t.value);
        Winner(r, es, k, t.value);
      }
    }
    SameTable(Apply(r, es), r);
  }

  lemma SameTable<K, V>(a: map<K, Row<V>>, b: map<K, Row<V>>)
    requires forall k: K :: Get(a, k) == Get(b, k)
    ensures a == b
  {
    forall k: K ensures k in a <==> k in b { assert Get(a, k) == Get(b, k); }
    forall k: K | k in a ensures a[k] == b[k] { assert Get(a, k) == Get(b, k); }
  }

  // ---- order ---------------------------------------------------------------

  /** Two events for one key, equally new, at least as new as everything else
      about the key, that disagree. */
  ghost predicate Conflict<K(!new), V>(m: map<K, Row<V>>, es: seq<Event<K, V>>, i: int, j: int) {
    && 0 <= i < |es| && 0 <= j < |es|
    && es[i].key == es[j].key && es[i].ts == es[j].ts && es[i].value != es[j].value
    && Bounded(Get(m, es[i].key), es, es[i].key, es[i].ts)
  }

  /** es with its i-th event moved to the end. */
  function MoveLast<T>(es: seq<T>, i: nat): seq<T>
    requires i < |es|
  {
    es[..i] + es[i + 1..] + [es[i]]
  }

  lemma MoveLastPermutes<T>(es: seq<T>, i: nat)
    requires i < |es|
    ensures multiset(MoveLast(es, i)) == multiset(es)
  {
    assert es == es[..i] + [es[i]] + es[i + 1..];
  }

  lemma InPermutation<T>(a: seq<T>, b: seq<T>, i: nat) returns (j: nat)
    requires multiset(a) == multiset(b) && i < |a|
    ensures j < |b| && b[j] == a[i]
  {
    assert a[i] in multiset(b);
    j :| j < |b| && b[j] == a[i];
  }

  lemma BoundedPermutes<K, V>(o: Option<Row<V>>, a: seq<Event<K, V>>, b: seq<Event<K, V>>, k: K, t: int)
    requires Bounded(o, a, k, t) && multiset(a) == multiset(b)
    ensures Bounded(o, b, k, t)
  {
    forall i | 0 <= i < |b| && b[i].key == k ensures b[i].ts <= t {
      var j := InPermutation(b, a, i);
    }
  }

  /** The event moved last wins. */
  lemma LastWins<K, V>(m: map<K, Row<V>>, es: seq<Event<K, V>>, i: nat)
    requires i < |es| && Bounded(Get(m, es[i].key), es, es[i].key, es[i].ts)
    ensures Get(Apply(m, MoveLast(es, i)), es[i].key) == Some(Row(es[i].value, es[i].ts))
  {
    MoveLastPermutes(es, i);
    var last := MoveLast(es, i);
    BoundedPermutes(Get(m, es[i].key), es, last, es[i].key, es[i].ts);
    assert last[|last| - 1] == es[i];
    Winner(m, last, es[i].key, es[i].ts);
  }

  lemma NoConflictSameRow<K(!new), V>(m: map<K, Row<V>>, a: seq<Event<K, V>>, b: seq<Event<K, V>>, k: K)
    requires multiset(a) == multiset(b) && forall i, j :: !Conflict(m, a, i, j)
    ensures Get(Apply(m, a), k) == Get(Apply(m, b), k)
  {
    var t := Newest(m, a, k);
    if t.None? {
      forall i | 0 <= i < |b| ensures b[i].key != k { var j := InPermutation(b, a, i); }
      UntouchedKey(m, a, k);
      UntouchedKey(m, b, k);
    } else {
      BoundedPermutes(Get(m, k), a, b, k, t.value);
      Winner(m, a, k, t.value);
      Winner(m, b, k, t.value);
      var i, j := LastAt(a, k, t.value), LastAt(b, k, t.value);
      if i >= 0 {
        var i' := InPermutation(a, b, i);
        assert j >= 0;
        var j' := InPermutation(b, a, j);
        assert !Conflict(m, a, i, j');
      } else if j >= 0 {
        var j' := InPermutation(b, a, j);
        assert false;
      }
    }
  }

  /** The order of arrival does not matter exactly when no two equally new
      events for a key disagree. */
  lemma OrderFreeExactly<K(!new), V(!new)>(m: map<K, Row<V>>, es: seq<Event<K, V>>)
    ensures (forall b :: multiset(b) == multiset(es) ==> Apply(m, b) == Apply(m, es))
            <==> forall i, j :: !Conflict(m, es, i, j)
  {
    if i, j :| Conflict(m, es, i, j) {
      LastWins(m, es, i);
      LastWins(m, es, j);
      MoveLastPermutes(es, i);
      MoveLastPermutes(es, j);
      assert Apply(m, MoveLast(es, i)) != Apply(m, MoveLast(es, j));
    } else {
      forall b | multiset(b) == multiset(es) ensures Apply(m, b) == Apply(m, es) {
        forall k: K ensures Get(Apply(m, b), k) == Get(Apply(m, es), k) {
          NoConflictSameRow(m, es, b, k);
        }
        SameTable(Apply(m, b), Apply(m, es));
      }
    }
  }
}
