/** Track pins and unsync actions: ingest.c's handle_pin and handle_action on
    the tables of actions.c. */
module Pins {
  import opened Lww

  type Sha = string

  datatype Tables = Tables(tracks: set<Sha>, pins: map<Sha, Row<bool>>, overrides: set<Sha>, blacklist: set<Sha>)
  datatype Action = Pin(id: Sha, pinned: bool, ts: int) | Unsync(id: Sha, ts: int) | Delete(id: Sha, ts: int)

  /** handle_pin: nothing for a blacklisted track; a pin clears the track's
      override even when the row it would write is refused as too old. */
  function HandlePin(t: Tables, id: Sha, pinned: bool, ts: int): Tables {
    if id in t.blacklist then t
    else t.(pins := Upsert(t.pins, Event(id, pinned, ts)),
            overrides := if pinned then t.overrides - {id} else t.overrides)
  }

  /** The timestamp gate of handle_action, then unsync_track, which keeps the
      row's timestamp. */
  function HandleUnsync(t: Tables, id: Sha, ts: int): Tables {
    var pinTs := if id in t.pins then t.pins[id].ts else 0;
    if pinTs > ts then t
    else t.(pins := if id in t.pins then t.pins[id := t.pins[id].(value := false)] else t.pins,
            overrides := t.overrides + {id})
  }

  /** delete_track_everywhere: the companion rows go with the tracks row, by
      trigger, so only when there is one. */
  function HandleDelete(t: Tables, id: Sha): Tables {
    var u := t.(blacklist := t.blacklist + {id});
    if id !in t.tracks then u
    else u.(tracks := t.tracks - {id}, pins := t.pins - {id}, overrides := t.overrides - {id})
  }

  function Step(t: Tables, a: Action): Tables {
    match a
    case Pin(id, pinned, ts) => HandlePin(t, id, pinned, ts)
    case Unsync(id, ts) => HandleUnsync(t, id, ts)
    case Delete(id, _) => HandleDelete(t, id)
  }

  function Run(t: Tables, actions: seq<Action>): Tables {
    if actions == [] then t else Step(Run(t, actions[..|actions| - 1]), actions[|actions| - 1])
  }

  class Handler {
    var tables: Tables

    constructor (t: Tables)
      ensures tables == t
    {
      tables := t;
    }

    method Handle(a: Action)
      modifies this
      ensures tables == Step(old(tables), a)
    {
      match a {
        case Pin(id, pinned, ts) =>
          if id in tables.blacklist { return; }
          if id !in tables.pins || ts >= tables.pins[id].ts {
            tables := tables.(pins := tables.pins[id := Row(pinned, ts)]);
          }
          if pinned { tables := tables.(overrides := tables.overrides - {id}); }
        case Unsync(id, ts) =>
          var pinTs := if id in tables.pins then tables.pins[id].ts else 0;
          if pinTs > ts { return; }
          if id in tables.pins {
            tables := tables.(pins := tables.pins[id := Row(false, tables.pins[id].ts)]);
          }
          tables := tables.(overrides := tables.overrides + {id});
        case Delete(id, _) =>
          tables := tables.(blacklist := tables.blacklist + {id});
          if id in tables.tracks {
            tables := tables.(tracks := tables.tracks - {id}, pins := tables.pins - {id},
                              overrides := tables.overrides - {id});
          }
      }
    }

    /** Any number of passes, in whatever order they bring the events. */
    method HandleAll(actions: seq<Action>)
      modifies this
      ensures tables == Run(old(tables), actions)
    {
      for i := 0 to |actions|
        invariant tables == Run(old(tables), actions[..i])
      {
        assert actions[..i + 1][..i] == actions[..i];
        Handle(actions[i]);
      }
      assert actions[..|actions|] == actions;
    }
  }

  // ---- what becomes of one track -------------------------------------------

  predicate PinnedForGood(t: Tables, id: Sha) {
    id in t.pins && t.pins[id].value && id !in t.overrides
  }

  /** Nothing about id is newer than ts; whatever is as new is a pin that pins. */
  ghost predicate NewestPins(actions: seq<Action>, id: Sha, ts: int) {
    forall i :: 0 <= i < |actions| && actions[i].id == id ==>
      match actions[i]
      case Pin(_, pinned, u) => u < ts || (u == ts && pinned)
      case Unsync(_, u) => u < ts
      case Delete(_, _) => false
  }

  ghost predicate NoDelete(actions: seq<Action>, id: Sha) {
    forall i :: 0 <= i < |actions| && actions[i].id == id ==> !actions[i].Delete?
  }

  /** Once the newest pin has been handled the track stays pinned. */
  lemma {:induction false} NewestPinWins(t: Tables, actions: seq<Action>, id: Sha, ts: int)
    requires id !in t.blacklist && (id in t.pins ==> t.pins[id].ts <= ts)
    requires NewestPins(actions, id, ts)
    ensures var u := Run(t, actions);
            && id !in u.blacklist
            && (if Pin(id, true, ts) in actions then PinnedForGood(u, id) && u.pins[id].ts == ts
                else id in u.pins ==> u.pins[id].ts <= ts)
  {
    if actions == [] {
    } else {
      var front, a := actions[..|actions| - 1], actions[|actions| - 1];
      assert actions == front + [a];
      NewestPinWins(t, front, id, ts);
      assert actions[|actions| - 1].id == id ==> match a
        case Pin(_, pinned, u) => u < ts || (u == ts && pinned)
        case Unsync(_, u) => u < ts
        case Delete(_, _) => false;
    }
  }

  lemma NewestPinsPermutes(a: seq<Action>, b: seq<Action>, id: Sha, ts: int)
    requires NewestPins(a, id, ts) && multiset(a) == multiset(b)
    ensures NewestPins(b, id, ts) && (Pin(id, true, ts) in a <==> Pin(id, true, ts) in b)
  {
    forall i | 0 <= i < |b| ensures b[i] in a { var j := InPermutation(b, a, i); }
    assert Pin(id, true, ts) in multiset(a) <==> Pin(id, true, ts) in multiset(b);
  }

  /** No pin for id is newer than ts. */
  ghost predicate PinsUpTo(actions: seq<Action>, id: Sha, ts: int) {
    forall i :: 0 <= i < |actions| && actions[i].Pin? && actions[i].id == id ==> actions[i].ts <= ts
  }

  lemma {:induction false} RowUpTo(t: Tables, actions: seq<Action>, id: Sha, ts: int)
    requires id !in t.blacklist && NoDelete(actions, id) && PinsUpTo(actions, id, ts)
    requires id in t.pins ==> t.pins[id].ts <= ts
    ensures var u := Run(t, actions);
            id !in u.blacklist && (id in u.pins ==> u.pins[id].ts <= ts)
    ensures id !in t.pins && (forall i :: 0 <= i < |actions| && actions[i].id == id ==> !actions[i].Pin?) ==>
              id !in Run(t, actions).pins
  {
    if actions == [] {
    } else {
      var front, a := actions[..|actions| - 1], actions[|actions| - 1];
      RowUpTo(t, front, id, ts);
      assert actions[|actions| - 1] == a;
    }
  }

  /** A pin for id than which no other is newer. */
  lemma {:induction false} NewestPin(actions: seq<Action>, id: Sha) returns (i: nat)
    requires exists j :: 0 <= j < |actions| && actions[j].Pin? && actions[j].id == id
    ensures i < |actions| && actions[i].Pin? && actions[i].id == id && PinsUpTo(actions, id, actions[i].ts)
  {
    var n := |actions| - 1;
    var front, a := actions[..n], actions[n];
    if exists j :: 0 <= j < n && front[j].Pin? && front[j].id == id {
      i := NewestPin(front, id);
      if a.Pin? && a.id == id && a.ts > actions[i].ts { i := n; }
      assert forall j :: 0 <= j < n ==> actions[j] == front[j];
    } else {
      i := n;
      assert forall j :: 0 <= j < n ==> actions[j] == front[j];
    }
  }

  /** An unpin as new as ts, or an unsync not older. */
  predicate Undoes(a: Action, id: Sha, ts: int) {
    a == Pin(id, false, ts) || (a.Unsync? && a.id == id && a.ts >= ts)
  }

  /** It undoes a pin at ts when it comes last. */
  lemma LastUndoes(t: Tables, actions: seq<Action>, id: Sha, ts: int, k: nat)
    requires id !in t.blacklist && NoDelete(actions, id) && PinsUpTo(actions, id, ts)
    requires id in t.pins ==> t.pins[id].ts <= ts
    requires k < |actions| && Undoes(actions[k], id, ts)
    ensures !PinnedForGood(Run(t, MoveLast(actions, k)), id)
  {
    var b := MoveLast(actions, k);
    MoveLastPermutes(actions, k);
    forall i | 0 <= i < |b| ensures b[i] in actions { var j := InPermutation(b, actions, i); }
    var front := b[..|b| - 1];
    assert b == front + [actions[k]];
    forall i | 0 <= i < |front| ensures front[i] in actions { assert front[i] == b[i]; }
    RowUpTo(t, front, id, ts);
  }

  /** Every event for id is older than ts. */
  ghost predicate AllOlder(actions: seq<Action>, id: Sha, ts: int) {
    forall i :: 0 <= i < |actions| && actions[i].id == id ==> actions[i].ts < ts && !actions[i].Delete?
  }

  ghost predicate SomePin(actions: seq<Action>, id: Sha) {
    exists i :: 0 <= i < |actions| && actions[i].Pin? && actions[i].id == id && actions[i].pinned
  }

  /** Older events leave the row, and a pin among them clears the override. */
  lemma {:induction false} OldEvents(t: Tables, actions: seq<Action>, id: Sha)
    requires id !in t.blacklist && id in t.pins && AllOlder(actions, id, t.pins[id].ts)
    ensures var u := Run(t, actions);
            && id !in u.blacklist && id in u.pins && u.pins[id] == t.pins[id]
            && (id in u.overrides <==> id in t.overrides && !SomePin(actions, id))
  {
    if actions == [] {
    } else {
      var front, a := actions[..|actions| - 1], actions[|actions| - 1];
      OldEvents(t, front, id);
      assert forall i :: 0 <= i < |front| ==> front[i] == actions[i];
      assert SomePin(actions, id) <==> SomePin(front, id) || (a.Pin? && a.id == id && a.pinned) by {
        assert actions[|actions| - 1] == a;
      }
    }
  }

  lemma OldPermutes(a: seq<Action>, b: seq<Action>, id: Sha, ts: int)
    requires AllOlder(a, id, ts) && multiset(a) == multiset(b)
    ensures AllOlder(b, id, ts) && (SomePin(a, id) <==> SomePin(b, id))
  {
    forall i | 0 <= i < |b| ensures exists j :: 0 <= j < |a| && a[j] == b[i] { var j := InPermutation(b, a, i); }
    forall i | 0 <= i < |a| ensures exists j :: 0 <= j < |b| && b[j] == a[i] { var j := InPermutation(a, b, i); }
  }

  /** Some pin is at least as new as the row, newer than every unsync, and no
      pin or unpin is newer, or as new and says otherwise. */
  ghost predicate PinOutlasts(t: Tables, actions: seq<Action>, id: Sha) {
    exists ts :: Pin(id, true, ts) in actions && NewestPins(actions, id, ts) && (id in t.pins ==> t.pins[id].ts <= ts)
  }

  /** The row pins and is newer than every event, and no override stands. */
  ghost predicate RowOutlasts(t: Tables, actions: seq<Action>, id: Sha) {
    && id in t.pins && t.pins[id].value && AllOlder(actions, id, t.pins[id].ts)
    && (id in t.overrides ==> SomePin(actions, id))
  }

  /** With the newest pin at ts, either it outlasts everything or some order
      undoes it. */
  lemma PinOrUndone(t: Tables, actions: seq<Action>, id: Sha, i: nat) returns (b: seq<Action>)
    requires id !in t.blacklist && NoDelete(actions, id) && !PinOutlasts(t, actions, id)
    requires i < |actions| && actions[i].Pin? && actions[i].id == id && PinsUpTo(actions, id, actions[i].ts)
    requires id in t.pins ==> t.pins[id].ts <= actions[i].ts
    ensures multiset(b) == multiset(actions) && !PinnedForGood(Run(t, b), id)
  {
    var ts := actions[i].ts;
    if k :| 0 <= k < |actions| && Undoes(actions[k], id, ts) {
      b := MoveLast(actions, k);
      LastUndoes(t, actions, id, ts, k);
      MoveLastPermutes(actions, k);
    } else {
      b := actions;
      assert actions[i] == Pin(id, true, ts);
      assert NewestPins(actions, id, ts);
    }
  }

  /** With no pin as new as the row, either the row outlasts everything or some
      order undoes it. */
  lemma RowOrUndone(t: Tables, actions: seq<Action>, id: Sha) returns (b: seq<Action>)
    requires id !in t.blacklist && NoDelete(actions, id) && !RowOutlasts(t, actions, id)
    requires id in t.pins
    requires forall i :: 0 <= i < |actions| && actions[i].Pin? && actions[i].id == id ==> actions[i].ts < t.pins[id].ts
    ensures multiset(b) == multiset(actions) && !PinnedForGood(Run(t, b), id)
  {
    var ts := t.pins[id].ts;
    if k :| 0 <= k < |actions| && Undoes(actions[k], id, ts) {
      b := MoveLast(actions, k);
      LastUndoes(t, actions, id, ts, k);
      MoveLastPermutes(actions, k);
    } else {
      b := actions;
      assert AllOlder(actions, id, ts);
      OldEvents(t, actions, id);
    }
  }

  lemma SomeOrderUndoes(t: Tables, actions: seq<Action>, id: Sha) returns (b: seq<Action>)
    requires id !in t.blacklist && NoDelete(actions, id)
    requires !PinOutlasts(t, actions, id) && !RowOutlasts(t, actions, id)
    ensures multiset(b) == multiset(actions) && !PinnedForGood(Run(t, b), id)
  {
    if exists j :: 0 <= j < |actions| && actions[j].Pin? && actions[j].id == id {
      var i := NewestPin(actions, id);
      if id in t.pins && actions[i].ts < t.pins[id].ts {
        b := RowOrUndone(t, actions, id);
      } else {
        b := PinOrUndone(t, actions, id, i);
      }
    } else if id in t.pins {
      b := RowOrUndone(t, actions, id);
    } else {
      b := actions;
      RowUpTo(t, actions, id, 0);
    }
  }

  /** A track ends pinned, with no override, in every order of its events
      exactly when a pin outlasts everything, or the row it had does. */
  lemma AlwaysPinnedExactly(t: Tables, actions: seq<Action>, id: Sha)
    requires id !in t.blacklist && NoDelete(actions, id)
    ensures (forall b :: multiset(b) == multiset(actions) ==> PinnedForGood(Run(t, b), id))
            <==> PinOutlasts(t, actions, id) || RowOutlasts(t, actions, id)
  {
    if ts :| Pin(id, true, ts) in actions && NewestPins(actions, id, ts) && (id in t.pins ==> t.pins[id].ts <= ts) {
      forall b | multiset(b) == multiset(actions) ensures PinnedForGood(Run(t, b), id) {
        NewestPinsPermutes(actions, b, id, ts);
        NewestPinWins(t, b, id, ts);
      }
    } else if RowOutlasts(t, actions, id) {
      forall b | multiset(b) == multiset(actions) ensures PinnedForGood(Run(t, b), id) {
        OldPermutes(actions, b, id, t.pins[id].ts);
        OldEvents(t, b, id);
      }
    } else {
      var b := SomeOrderUndoes(t, actions, id);
    }
  }

  // ---- unsyncs -------------------------------------------------------------

  lemma {:induction false} RunJoined(t: Tables, a: seq<Action>, b: seq<Action>)
    ensures Run(t, a + b) == Run(Run(t, a), b)
  {
    if b == [] {
      assert a + b == a;
    } else {
      RunJoined(t, a, b[..|b| - 1]);
      assert (a + b)[..|a + b| - 1] == a + b[..|b| - 1];
    }
  }

  /** No pin event and no delete for id. */
  ghost predicate LeftAlone(actions: seq<Action>, id: Sha) {
    forall i :: 0 <= i < |actions| && actions[i].id == id ==> actions[i].Unsync?
  }

  lemma {:induction false} StaysUnsynced(t: Tables, actions: seq<Action>, id: Sha)
    requires LeftAlone(actions, id) && id in t.overrides && (id in t.pins ==> !t.pins[id].value)
    ensures var u := Run(t, actions);
            && id in u.overrides && (id in u.pins <==> id in t.pins)
            && (id in t.pins ==> u.pins[id] == t.pins[id])
  {
    if actions == [] {
    } else {
      var front, a := actions[..|actions| - 1], actions[|actions| - 1];
      assert forall i :: 0 <= i < |front| ==> front[i] == actions[i];
      StaysUnsynced(t, front, id);
      assert actions[|actions| - 1].id == id ==> a.Unsync?;
    }
  }

  /** An unsync not older than the pins handled before it unpins the track and
      leaves an override; both stay until the track is pinned again or deleted,
      and the row keeps the time of its pin. */
  lemma UnsyncHolds(t: Tables, before: seq<Action>, ts: int, after: seq<Action>, id: Sha)
    requires id !in t.blacklist && NoDelete(before, id) && PinsUpTo(before, id, ts) && LeftAlone(after, id)
    requires ts >= 0 && (id in t.pins ==> t.pins[id].ts <= ts)
    ensures var u, v := Run(t, before), Run(t, before + [Unsync(id, ts)] + after);
            && id in v.overrides && (id in v.pins <==> id in u.pins)
            && (id in u.pins ==> v.pins[id] == Row(false, u.pins[id].ts))
  {
    var done := before + [Unsync(id, ts)];
    assert done[..|done| - 1] == before;
    RowUpTo(t, before, id, ts);
    RunJoined(t, done, after);
    StaysUnsynced(Run(t, done), after, id);
  }

  /** An unsync older than the pin's row changes nothing. */
  lemma StaleUnsync(t: Tables, before: seq<Action>, ts: int, after: seq<Action>, id: Sha)
    requires id in Run(t, before).pins && ts < Run(t, before).pins[id].ts
    ensures Run(t, before + [Unsync(id, ts)] + after) == Run(t, before + after)
  {
    var done := before + [Unsync(id, ts)];
    assert done[..|done| - 1] == before;
    RunJoined(t, done, after);
    RunJoined(t, before, after);
  }

  // ---- deletion ------------------------------------------------------------

  /** An unsync of the track; its timestamp is not negative. */
  ghost predicate SomeUnsync(actions: seq<Action>, id: Sha) {
    exists i :: 0 <= i < |actions| && actions[i].Unsync? && actions[i].id == id && actions[i].ts >= 0
  }

  lemma UnsyncLast(front: seq<Action>, a: Action, id: Sha)
    ensures SomeUnsync(front + [a], id) <==> SomeUnsync(front, id) || (a.Unsync? && a.id == id && a.ts >= 0)
  {
    var all := front + [a];
    assert all[|front|] == a;
    if SomeUnsync(front, id) {
      var i :| 0 <= i < |front| && front[i].Unsync? && front[i].id == id && front[i].ts >= 0;
      assert all[i] == front[i];
    }
  }

  /** Once blacklisted and without a row, a track gets neither a row nor a pin
      back; an override only from an unsync. */
  lemma {:induction false} StaysDeleted(t: Tables, actions: seq<Action>, id: Sha)
    requires id in t.blacklist && id !in t.tracks && id !in t.pins
    ensures var u := Run(t, actions);
            && id in u.blacklist && id !in u.tracks && id !in u.pins
            && (id in u.overrides <==> id in t.overrides || SomeUnsync(actions, id))
  {
    if actions == [] {
    } else {
      var front, a := actions[..|actions| - 1], actions[|actions| - 1];
      StaysDeleted(t, front, id);
      UnsyncLast(front, a, id);
      assert actions == front + [a];
    }
  }

  /** After a delete of a track, whatever came before and whatever follows, it is
      blacklisted and has neither a row nor a pin, and an override exactly when
      a later unsync wrote one. */
  lemma DeletedForGood(t: Tables, before: seq<Action>, ts: int, after: seq<Action>, id: Sha)
    requires id in Run(t, before).tracks
    ensures var u := Run(t, before + [Delete(id, ts)] + after);
            && id in u.blacklist && id !in u.tracks && id !in u.pins
            && (id in u.overrides <==> SomeUnsync(after, id))
  {
    var done := before + [Delete(id, ts)];
    assert done[..|done| - 1] == before;
    RunJoined(t, done, after);
    StaysDeleted(Run(t, done), after, id);
  }

  /** A delete of a track that has no row leaves its pin and override where they
      are, and no later pin changes the pin. */
  lemma {:induction false} BlacklistedPin(t: Tables, actions: seq<Action>, id: Sha)
    requires id in t.blacklist && id !in t.tracks
    ensures var u := Run(t, actions);
            && id in u.blacklist && id !in u.tracks
            && (id in u.pins <==> id in t.pins)
            && (id in t.pins ==> u.pins[id].ts == t.pins[id].ts && (u.pins[id].value ==> t.pins[id].value))
  {
    if actions == [] {
    } else {
      BlacklistedPin(t, actions[..|actions| - 1], id);
    }
  }

  lemma DeletedUntracked(t: Tables, before: seq<Action>, ts: int, after: seq<Action>, id: Sha)
    requires id !in Run(t, before).tracks
    ensures var u, v := Run(t, before), Run(t, before + [Delete(id, ts)] + after);
            && id in v.blacklist && id !in v.tracks && (id in v.pins <==> id in u.pins)
            && (id in u.pins ==> v.pins[id].ts == u.pins[id].ts && (v.pins[id].value ==> u.pins[id].value))
  {
    var done := before + [Delete(id, ts)];
    assert done[..|done| - 1] == before;
    RunJoined(t, done, after);
    BlacklistedPin(Run(t, done), after, id);
  }

  /** Without that the code is not last-writer-wins: a pin that arrives after
      a newer unsync revives the track. */
  lemma StalePinRevives()
    ensures var t := Tables({"s"}, map[], {}, {});
            var unsync, pin := Unsync("s", 20), Pin("s", true, 10);
            PinnedForGood(Run(t, [unsync, pin]), "s") && !PinnedForGood(Run(t, [pin, unsync]), "s")
  {
    var t := Tables({"s"}, map[], {}, {});
    var unsync, pin := Unsync("s", 20), Pin("s", true, 10);
    assert [unsync, pin][..1] == [unsync] && [pin, unsync][..1] == [pin];
    assert [unsync][..0] == [] && [pin][..0] == [];
    assert Run(t, [unsync]) == Step(t, unsync) && Run(t, [pin]) == Step(t, pin);
  }
}
