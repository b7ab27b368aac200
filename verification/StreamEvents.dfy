/** cortexgrid_ui/backend/utils/keyed_stream.py and its client fold in
    useStreamList.ts: diff events, and what folding them does to a map. */
module StreamEvents {
  import opened Common

  /** A payload carries its own id, which the client reads back out of it. */
  datatype Item = Item(id: string, body: string)

  type Items = map<string, Item>

  datatype Event = Added(item: Item) | Updated(item: Item) | Removed(id: string)
  {
    function Id(): string {
      if Removed? then id else item.id
    }
  }

  ghost predicate WellKeyed(items: Items) {
    forall id :: id in items ==> items[id].id == id
  }

  /******* The client's fold *******/

  function Apply(items: Items, event: Event): Items {
    match event
    case Added(item) => items[item.id := item]
    case Updated(item) => items[item.id := item]
    case Removed(id) => items - {id}
  }

  function Fold(items: Items, events: seq<Event>): Items {
    if events == [] then items
    else Apply(Fold(items, events[..|events| - 1]), events[|events| - 1])
  }

  lemma {:induction false} FoldConcat(items: Items, first: seq<Event>, second: seq<Event>)
    ensures Fold(items, first + second) == Fold(Fold(items, first), second)
  {
    if second == [] {
      assert first + second == first;
    } else {
      var rest, last := second[..|second| - 1], second[|second| - 1];
      assert (first + second)[..|first + second| - 1] == first + rest;
      FoldConcat(items, first, rest);
    }
  }

  predicate SameAt(a: Items, b: Items, id: string) {
    (id in a <==> id in b) && (id in a ==> a[id] == b[id])
  }

  /** Events treat every id on its own. */
  lemma {:induction false} FoldIsPointwise(a: Items, b: Items, events: seq<Event>, id: string)
    requires SameAt(a, b, id)
    ensures SameAt(Fold(a, events), Fold(b, events), id)
  {
    if events != [] {
      FoldIsPointwise(a, b, events[..|events| - 1], id);
    }
  }

  predicate Touches(events: seq<Event>, id: string) {
    exists i :: 0 <= i < |events| && events[i].Id() == id
  }

  lemma {:induction false} FoldUntouched(items: Items, events: seq<Event>, id: string)
    requires !Touches(events, id)
    ensures SameAt(Fold(items, events), items, id)
  {
    if events != [] {
      var rest := events[..|events| - 1];
      assert forall i :: 0 <= i < |rest| ==> rest[i].Id() == events[i].Id();
      FoldUntouched(items, rest, id);
      assert events[|events| - 1].Id() != id;
    }
  }

  /** Where the events touch an id, the start no longer matters. */
  lemma {:induction false} FoldTouched(a: Items, b: Items, events: seq<Event>, id: string)
    requires Touches(events, id)
    ensures SameAt(Fold(a, events), Fold(b, events), id)
  {
    var i :| 0 <= i < |events| && events[i].Id() == id;
    assert events == events[..i + 1] + events[i + 1..];
    assert events[..i + 1][..i] == events[..i];
    FoldConcat(a, events[..i + 1], events[i + 1..]);
    FoldConcat(b, events[..i + 1], events[i + 1..]);
    FoldIsPointwise(Fold(a, events[..i + 1]), Fold(b, events[..i + 1]), events[i + 1..], id);
  }

  lemma SameEverywhere(a: Items, b: Items)
    requires forall id :: SameAt(a, b, id)
    ensures a == b
  {
    forall id ensures (id in a <==> id in b) && (id in a ==> a[id] == b[id]) {
      assert SameAt(a, b, id);
    }
  }

  /******* _diff_dict *******/

  /** One event per id that differs, of the kind the difference calls for. */
  ghost predicate IsDiff(events: seq<Event>, before: Items, now: Items) {
    && (forall i, j :: 0 <= i < j < |events| ==> events[i].Id() != events[j].Id())
    && (forall i :: 0 <= i < |events| ==> IsChange(events[i], before, now))
    && (forall id :: !SameAt(before, now, id) ==> Touches(events, id))
  }

  ghost predicate IsChange(event: Event, before: Items, now: Items) {
    match event
    case Added(item) => item.id !in before && item.id in now && now[item.id] == item
    case Updated(item) => item.id in before && item.id in now && now[item.id] == item && before[item.id] != item
    case Removed(id) => id in before && id !in now
  }

  /** A diff takes the old items to the new ones. */
  lemma DiffReaches(events: seq<Event>, before: Items, now: Items)
    requires IsDiff(events, before, now)
    ensures Fold(before, events) == now
  {
    forall id ensures SameAt(Fold(before, events), now, id) {
      if Touches(events, id) {
        var i :| 0 <= i < |events| && events[i].Id() == id;
        LastTouch(before, events, i);
        assert IsChange(events[i], before, now);
      } else {
        FoldUntouched(before, events, id);
      }
    }
    SameEverywhere(Fold(before, events), now);
  }

  /** With one event per id, that event decides. */
  lemma LastTouch(items: Items, events: seq<Event>, i: nat)
    requires i < |events|
    requires forall a, b :: 0 <= a < b < |events| ==> events[a].Id() != events[b].Id()
    ensures SameAt(Fold(items, events), Apply(Fold(items, events[..i]), events[i]), events[i].Id())
  {
    var after := events[i + 1..];
    assert events == events[..i + 1] + after;
    assert events[..i + 1][..i] == events[..i];
    FoldConcat(items, events[..i + 1], after);
    assert !Touches(after, events[i].Id());
    FoldUntouched(Fold(items, events[..i + 1]), after, events[i].Id());
  }

  method DiffDict(before: Items, now: Items) returns (events: seq<Event>)
    requires WellKeyed(now)
    ensures IsDiff(events, before, now)
  {
    hide IsDiff, IsDiffOn, Touches;
    events := [];
    var ids := Enumerate(now.Keys);
    NothingDiffersYet(before, now);
    assert ToSet(ids[..0]) == {};
    var i := 0;
    while i < |ids|
      invariant 0 <= i <= |ids|
      invariant IsDiffOn(events, before, now, ToSet(ids[..i]))
    {
      var id := ids[i];
      assert id in ToSet(ids) && id !in ids[..i];
      assert ids[..i + 1] == ids[..i] + [id];
      assert ToSet(ids[..i + 1]) == ToSet(ids[..i]) + {id};
      if id !in before {
        DiffOnMore(events, before, now, ToSet(ids[..i]), Added(now[id]));
        events := events + [Added(now[id])];
      } else if before[id] != now[id] {
        DiffOnMore(events, before, now, ToSet(ids[..i]), Updated(now[id]));
        events := events + [Updated(now[id])];
      } else {
        DiffOnSame(events, before, now, ToSet(ids[..i]), id);
      }
      i := i + 1;
    }
    assert ids[..i] == ids;
    var oldIds := Enumerate(before.Keys);
    assert now.Keys + ToSet(oldIds[..0]) == now.Keys;
    i := 0;
    while i < |oldIds|
      invariant 0 <= i <= |oldIds|
      invariant IsDiffOn(events, before, now, now.Keys + ToSet(oldIds[..i]))
    {
      var id := oldIds[i];
      assert id in ToSet(oldIds) && id !in oldIds[..i];
      assert oldIds[..i + 1] == oldIds[..i] + [id];
      assert ToSet(oldIds[..i + 1]) == ToSet(oldIds[..i]) + {id};
      if id !in now {
        DiffOnMore(events, before, now, now.Keys + ToSet(oldIds[..i]), Removed(id));
        events := events + [Removed(id)];
        assert now.Keys + ToSet(oldIds[..i]) + {id} == now.Keys + ToSet(oldIds[..i + 1]);
      } else {
        assert now.Keys + ToSet(oldIds[..i]) == now.Keys + ToSet(oldIds[..i + 1]);
      }
      i := i + 1;
    }
    assert oldIds[..i] == oldIds;
    DiffOnAll(events, before, now);
  }

  lemma NothingDiffersYet(before: Items, now: Items)
    ensures IsDiffOn([], before, now, {})
  {
  }

  lemma DiffOnSame(events: seq<Event>, before: Items, now: Items, ids: set<string>, id: string)
    requires IsDiffOn(events, before, now, ids) && SameAt(before, now, id)
    ensures IsDiffOn(events, before, now, ids + {id})
  {
  }

  lemma DiffOnAll(events: seq<Event>, before: Items, now: Items)
    requires IsDiffOn(events, before, now, now.Keys + before.Keys)
    ensures IsDiff(events, before, now)
  {
  }

  /** A diff restricted to some ids. */
  ghost predicate IsDiffOn(events: seq<Event>, before: Items, now: Items, ids: set<string>) {
    && (forall i, j :: 0 <= i < j < |events| ==> events[i].Id() != events[j].Id())
    && (forall i :: 0 <= i < |events| ==> IsChange(events[i], before, now) && events[i].Id() in ids)
    && (forall id :: id in ids && !SameAt(before, now, id) ==> Touches(events, id))
  }

  lemma DiffOnMore(events: seq<Event>, before: Items, now: Items, ids: set<string>, event: Event)
    requires IsDiffOn(events, before, now, ids)
    requires IsChange(event, before, now) && event.Id() !in ids
    ensures IsDiffOn(events + [event], before, now, ids + {event.Id()})
  {
    forall id | Touches(events, id) || id == event.Id() ensures Touches(events + [event], id) {
      if Touches(events, id) {
        var i :| 0 <= i < |events| && events[i].Id() == id;
        assert (events + [event])[i].Id() == id;
      } else {
        assert (events + [event])[|events|].Id() == id;
      }
    }
  }

  /******* A client that reconnects *******/

  /** `useStreamList` keeps its map over a reconnect. Folding what the new
      connection brings into the map left over gives what a fresh client would
      hold exactly when every left-over id is touched. */
  lemma LeftOverAgreesIff(leftOver: Items, events: seq<Event>)
    ensures Fold(leftOver, events) == Fold(map[], events) <==> forall id :: id in leftOver ==> Touches(events, id)
  {
    forall id ensures SameAt(Fold(leftOver, events), Fold(map[], events), id) <==>
                      (id in leftOver ==> Touches(events, id))
    {
      if Touches(events, id) {
        FoldTouched(leftOver, map[], events, id);
      } else {
        FoldUntouched(leftOver, events, id);
        FoldUntouched(map[], events, id);
      }
    }
    if forall id :: id in leftOver ==> Touches(events, id) {
      SameEverywhere(Fold(leftOver, events), Fold(map[], events));
    }
  }

  /** Told by the snapshot: exactly when every left-over id that the snapshot
      lacks is touched by an event after it. */
  lemma ReconnectAgreesIff(leftOver: Items, replay: seq<Event>, snapshot: Items, events: seq<Event>)
    requires IsReplay(replay, snapshot)
    ensures Fold(leftOver, replay + events) == Fold(map[], replay + events) <==>
            forall id :: id in leftOver && id !in snapshot ==> Touches(events, id)
  {
    LeftOverAgreesIff(leftOver, replay + events);
    forall id ensures Touches(replay + events, id) <==> id in snapshot || Touches(events, id) {
      ReplayTouches(replay, snapshot, id);
      TouchesConcat(replay, events, id);
    }
  }

  lemma TouchesConcat(first: seq<Event>, second: seq<Event>, id: string)
    ensures Touches(first + second, id) <==> Touches(first, id) || Touches(second, id)
  {
    var whole := first + second;
    if Touches(first, id) {
      var i :| 0 <= i < |first| && first[i].Id() == id;
      assert whole[i].Id() == id;
    }
    if Touches(second, id) {
      var i :| 0 <= i < |second| && second[i].Id() == id;
      assert whole[|first| + i].Id() == id;
    }
  }

  /** An Added event per item of the snapshot, in some order. */
  ghost predicate IsReplay(replay: seq<Event>, snapshot: Items) {
    IsDiff(replay, map[], snapshot)
  }

  lemma ReplayTouches(replay: seq<Event>, snapshot: Items, id: string)
    requires IsReplay(replay, snapshot)
    ensures Touches(replay, id) <==> id in snapshot
  {
    if id in snapshot {
      assert !SameAt(map[], snapshot, id);
    }
    if Touches(replay, id) {
      var i :| 0 <= i < |replay| && replay[i].Id() == id;
      assert IsChange(replay[i], map[], snapshot);
    }
  }
}
