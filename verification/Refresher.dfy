/** cortexgrid_ui/backend/utils/keyed_stream.py, `KeyedCache` and `Refresher`:
    each method below is one locked section, and does what `Step` says. */
module Refresher {
  import opened StreamEvents
  import opened KeyedStream

  ghost function Held(cache: map<Topic, Items>, topic: Topic): Items {
    if topic in cache then cache[topic] else map[]
  }

  ghost function Registered(listeners: map<Topic, seq<Listener>>, topic: Topic): seq<Listener> {
    if topic in listeners then listeners[topic] else []
  }

  /** Whoever is registered once has the events behind what it had, in order,
      and whoever is not has what it had. */
  ghost predicate Delivered(
    before: map<Listener, seq<Event>>, after: map<Listener, seq<Event>>, listening: seq<Listener>, events: seq<Event>)
  {
    forall listener :: multiset(listening)[listener] <= 1 ==>
      (if listener in after then after[listener] else []) ==
      (if listener in before then before[listener] else []) + if listener in listening then events else []
  }

  lemma {:induction false} CountIsMultiplicity(listeners: seq<Listener>, listener: Listener)
    ensures Count(listeners, listener) == multiset(listeners)[listener]
  {
    if listeners != [] {
      CountIsMultiplicity(listeners[1..], listener);
      assert listeners == [listeners[0]] + listeners[1..];
    }
  }

  lemma BroadcastDelivers(queues: map<Listener, seq<Event>>, listening: seq<Listener>, events: seq<Event>)
    ensures Delivered(queues, Broadcast(queues, listening, events), listening, events)
  {
    forall listener | multiset(listening)[listener] <= 1
      ensures Queue(Broadcast(queues, listening, events), listener) ==
              Queue(queues, listener) + if listener in listening then events else []
    {
      CountIsMultiplicity(listening, listener);
      BroadcastToOne(queues, listening, events, listener);
      assert listener in listening <==> listener in multiset(listening);
    }
  }

  /** One registration of the listener is gone, the others stand as they did. */
  ghost predicate OneLess(before: seq<Listener>, after: seq<Listener>, listener: Listener) {
    exists i: nat :: i < |before| && before[i] == listener && IsWithout(before, i, after)
  }

  ghost predicate IsWithout(before: seq<Listener>, i: nat, after: seq<Listener>)
    requires i < |before|
  {
    after == before[..i] + before[i + 1..]
  }

  lemma {:induction false} RemoveFirstAt(listeners: seq<Listener>, listener: Listener) returns (i: nat)
    requires listener in listeners
    ensures i < |listeners| && listeners[i] == listener
    ensures IsWithout(listeners, i, RemoveFirst(listeners, listener))
  {
    if listeners[0] == listener {
      i := 0;
    } else {
      var k := RemoveFirstAt(listeners[1..], listener);
      i := k + 1;
      WithoutLater(listeners, k, RemoveFirst(listeners[1..], listener));
    }
  }

  lemma WithoutLater(listeners: seq<Listener>, k: nat, after: seq<Listener>)
    requires k + 1 < |listeners| && IsWithout(listeners[1..], k, after)
    ensures IsWithout(listeners, k + 1, [listeners[0]] + after)
  {
    assert listeners[..k + 1] == [listeners[0]] + listeners[1..][..k];
    assert listeners[k + 1 + 1..] == listeners[1..][k + 1..];
  }

  class Refresher {
    var cache: map<Topic, Items>
    var listeners: map<Topic, seq<Listener>>
    var queues: map<Listener, seq<Event>>

    constructor ()
      ensures S() == State(map[], map[], map[])
    {
      cache, listeners, queues := map[], map[], map[];
    }

    ghost function S(): State
      reads this
    {
      State(cache, listeners, queues)
    }

    function Get(topic: Topic): (items: Items)
      reads this
      ensures items == Cached(S(), topic)
    {
      if topic in cache then cache[topic] else map[]
    }

    /** The first locked section of a poll; the poll itself runs unlocked. */
    method PollBegins(topic: Topic) returns (before: Items)
      ensures before == Cached(S(), topic)
    {
      before := Get(topic);
    }

    /** The second locked section. If the topic changed since the poll began,
        what was polled is dropped. */
    method PollEnds(topic: Topic, before: Items, polled: Items)
      requires WellKeyed(polled)
      modifies this
      ensures Cached(old(S()), topic) != before ==> S() == old(S())
      ensures exists events ::
        Legal(Action.PollEnds(topic, before, polled, events)) &&
        S() == Step(old(S()), Action.PollEnds(topic, before, polled, events))
      ensures Held(old(cache), topic) == before ==>
        cache == old(cache)[topic := polled] && listeners == old(listeners) &&
        exists events :: IsDiff(events, before, polled) &&
          Delivered(old(queues), queues, Registered(listeners, topic), events)
    {
      var events := DiffDict(before, polled);
      ghost var action := Action.PollEnds(topic, before, polled, events);
      assert Legal(action);
      if Get(topic) != before {
        assert S() == Step(old(S()), action);
        return;
      }
      cache := cache[topic := polled];
      Send(topic, events);
      assert S() == Step(old(S()), action);
    }

    /** _broadcast, once per event. */
    method Send(topic: Topic, events: seq<Event>)
      modifies this`queues
      ensures queues == Broadcast(old(queues), Listening(S(), topic), events)
      ensures Delivered(old(queues), queues, Registered(listeners, topic), events)
    {
      BroadcastDelivers(queues, Registered(listeners, topic), events);
      hide Delivered;
      var listening := if topic in listeners then listeners[topic] else [];
      var i := 0;
      while i < |events|
        invariant 0 <= i <= |events|
        invariant queues == Broadcast(old(queues), listening, events[..i])
        invariant cache == old(cache) && listeners == old(listeners)
      {
        assert events[..i + 1][..i] == events[..i];
        SendOne(listening, events[i]);
        i := i + 1;
      }
      assert events[..i] == events;
    }

    method SendOne(listening: seq<Listener>, event: Event)
      modifies this`queues
      ensures queues == Deliver(old(queues), listening, event)
    {
      var i := 0;
      while i < |listening|
        invariant 0 <= i <= |listening|
        invariant Deliver(queues, listening[i..], event) == Deliver(old(queues), listening, event)
        invariant cache == old(cache) && listeners == old(listeners)
      {
        queues := queues[listening[i] := Queue(queues, listening[i]) + [event]];
        i := i + 1;
      }
    }

    method UpdateOrInsert(topic: Topic, item: Item)
      modifies this
      ensures S() == Step(old(S()), Action.UpdateOrInsert(topic, item))
      ensures listeners == old(listeners)
      ensures topic !in listeners ==> cache == old(cache) && queues == old(queues)
      ensures topic in listeners ==>
        var items := Held(old(cache), topic);
        cache == old(cache)[topic := items[item.id := item]] &&
        Delivered(old(queues), queues, listeners[topic], [if item.id in items then Updated(item) else Added(item)])
    {
      if topic !in listeners {
        return;
      }
      var items := Get(topic);
      var isNew := item.id !in items;
      cache := cache[topic := items[item.id := item]];
      var event := if isNew then Added(item) else Updated(item);
      Send(topic, [event]);
    }

    method Remove(topic: Topic, id: string)
      modifies this
      ensures S() == Step(old(S()), Action.Remove(topic, id))
      ensures listeners == old(listeners)
      ensures topic !in listeners || id !in Held(old(cache), topic) ==> cache == old(cache) && queues == old(queues)
      ensures topic in listeners && id in Held(old(cache), topic) ==>
        cache == old(cache)[topic := Held(old(cache), topic) - {id}] &&
        Delivered(old(queues), queues, listeners[topic], [Removed(id)])
    {
      if topic !in listeners {
        return;
      }
      var items := Get(topic);
      if id !in items {
        return;
      }
      cache := cache[topic := items - {id}];
      Send(topic, [Removed(id)]);
    }

    /** Registering and reading the snapshot are one locked section. */
    method SubscribeAndSnapshot(topic: Topic, listener: Listener) returns (snapshot: Items, isFirst: bool)
      modifies this
      ensures S() == Step(old(S()), Action.Subscribe(topic, listener))
      ensures snapshot == Cached(old(S()), topic) == Cached(S(), topic)
      ensures isFirst <==> topic !in old(listeners)
      ensures cache == old(cache) && queues == old(queues) && snapshot == Held(cache, topic)
      ensures listeners == old(listeners)[topic := Registered(old(listeners), topic) + [listener]]
    {
      isFirst := topic !in listeners;
      listeners := listeners[topic := (if topic in listeners then listeners[topic] else []) + [listener]];
      snapshot := Get(topic);
    }

    method Unsubscribe(topic: Topic, listener: Listener)
      modifies this
      ensures S() == Step(old(S()), Action.Unsubscribe(topic, listener))
      ensures queues == old(queues)
      ensures listener !in Registered(old(listeners), topic) ==> cache == old(cache) && listeners == old(listeners)
      ensures listener in Registered(old(listeners), topic) ==>
        if old(listeners)[topic] == [listener] then
          cache == old(cache) - {topic} && listeners == old(listeners) - {topic}
        else
          cache == old(cache) && topic in listeners && listeners == old(listeners)[topic := listeners[topic]] &&
          OneLess(old(listeners)[topic], listeners[topic], listener)
    {
      if topic !in listeners || listener !in listeners[topic] {
        return;
      }
      ghost var at := RemoveFirstAt(listeners[topic], listener);
      listeners := listeners[topic := RemoveFirst(listeners[topic], listener)];
      if listeners[topic] == [] {
        listeners := listeners - {topic};
        cache := cache - {topic};
      }
    }
  }
}
