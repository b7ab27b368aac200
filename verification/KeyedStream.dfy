/** cortexgrid_ui/backend/utils/keyed_stream.py: the locked sections of a
    Refresher as atomic steps, and what a WebSocket connection sees of them.
    A topic stands for a pair of refresher and topic key. */
module KeyedStream {
  import opened StreamEvents

  type Topic = string
  type Listener = nat

  datatype State = State(
    cache: map<Topic, Items>,
    listeners: map<Topic, seq<Listener>>,
    queues: map<Listener, seq<Event>>)  // what each listener was handed and nobody took yet

  function Cached(s: State, topic: Topic): Items {
    if topic in s.cache then s.cache[topic] else map[]
  }

  function Listening(s: State, topic: Topic): seq<Listener> {
    if topic in s.listeners then s.listeners[topic] else []
  }

  function Queue(queues: map<Listener, seq<Event>>, listener: Listener): seq<Event> {
    if listener in queues then queues[listener] else []
  }

  /******* Broadcasting *******/

  function Deliver(queues: map<Listener, seq<Event>>, listeners: seq<Listener>, event: Event)
    : map<Listener, seq<Event>>
    decreases |listeners|
  {
    if listeners == [] then queues
    else Deliver(queues[listeners[0] := Queue(queues, listeners[0]) + [event]], listeners[1..], event)
  }

  function Broadcast(queues: map<Listener, seq<Event>>, listeners: seq<Listener>, events: seq<Event>)
    : map<Listener, seq<Event>>
  {
    if events == [] then queues
    else Deliver(Broadcast(queues, listeners, events[..|events| - 1]), listeners, events[|events| - 1])
  }

  function Count(listeners: seq<Listener>, listener: Listener): nat {
    if listeners == [] then 0
    else (if listeners[0] == listener then 1 else 0) + Count(listeners[1..], listener)
  }

  lemma {:induction false} DeliverToOne(
    queues: map<Listener, seq<Event>>, listeners: seq<Listener>, event: Event, listener: Listener)
    requires Count(listeners, listener) <= 1
    ensures Queue(Deliver(queues, listeners, event), listener) ==
            Queue(queues, listener) + if Count(listeners, listener) == 1 then [event] else []
    decreases |listeners|
  {
    if listeners != [] {
      DeliverToOne(queues[listeners[0] := Queue(queues, listeners[0]) + [event]], listeners[1..], event, listener);
    }
  }

  /** A listener subscribed once gets every event once, in order. */
  lemma {:induction false} BroadcastToOne(
    queues: map<Listener, seq<Event>>, listeners: seq<Listener>, events: seq<Event>, listener: Listener)
    requires Count(listeners, listener) <= 1
    ensures Queue(Broadcast(queues, listeners, events), listener) ==
            Queue(queues, listener) + if Count(listeners, listener) == 1 then events else []
  {
    if events != [] {
      var rest, last := events[..|events| - 1], events[|events| - 1];
      BroadcastToOne(queues, listeners, rest, listener);
      DeliverToOne(Broadcast(queues, listeners, rest), listeners, last, listener);
      assert events == rest + [last];
    }
  }

  /** `list.remove`: drops the first occurrence. */
  function RemoveFirst(listeners: seq<Listener>, listener: Listener): seq<Listener> {
    if listeners == [] then []
    else if listeners[0] == listener then listeners[1..]
    else [listeners[0]] + RemoveFirst(listeners[1..], listener)
  }

  lemma {:induction false} CountRemoved(listeners: seq<Listener>, removed: Listener, listener: Listener)
    requires removed != listener
    ensures Count(RemoveFirst(listeners, removed), listener) == Count(listeners, listener)
  {
    if listeners != [] && listeners[0] != removed {
      CountRemoved(listeners[1..], removed, listener);
    }
  }

  lemma {:induction false} CountAppended(listeners: seq<Listener>, added: Listener, listener: Listener)
    ensures Count(listeners + [added], listener) ==
            Count(listeners, listener) + if added == listener then 1 else 0
  {
    if listeners != [] {
      assert (listeners + [added])[1..] == listeners[1..] + [added];
      CountAppended(listeners[1..], added, listener);
    }
  }

  /******* The locked sections *******/

  /** A poll's end: what the cache held when the poll began, what the poll
      read, and the diff between the two. */
  datatype Action =
    | PollEnds(topic: Topic, before: Items, polled: Items, events: seq<Event>)
    | UpdateOrInsert(topic: Topic, item: Item)
    | Remove(topic: Topic, id: string)
    | Subscribe(topic: Topic, listener: Listener)
    | Unsubscribe(topic: Topic, listener: Listener)

  /** The poll function and the write handlers key items by their own id. */
  ghost predicate Legal(a: Action) {
    a.PollEnds? ==> WellKeyed(a.polled) && IsDiff(a.events, a.before, a.polled)
  }

  function Publish(s: State, topic: Topic, items: Items, events: seq<Event>): State {
    s.(cache := s.cache[topic := items], queues := Broadcast(s.queues, Listening(s, topic), events))
  }

  function Step(s: State, a: Action): State {
    match a
    case PollEnds(topic, before, polled, events) =>
      if Cached(s, topic) != before then s else Publish(s, topic, polled, events)
    case UpdateOrInsert(topic, item) =>
      if topic !in s.listeners then s
      else
        var event := if item.id in Cached(s, topic) then Updated(item) else Added(item);
        Publish(s, topic, Cached(s, topic)[item.id := item], [event])
    case Remove(topic, id) =>
      if topic !in s.listeners || id !in Cached(s, topic) then s
      else Publish(s, topic, Cached(s, topic) - {id}, [Removed(id)])
    case Subscribe(topic, listener) =>
      s.(listeners := s.listeners[topic := Listening(s, topic) + [listener]])
    case Unsubscribe(topic, listener) =>
      if listener !in Listening(s, topic) then s
      else
        var left := RemoveFirst(Listening(s, topic), listener);
        if left == [] then s.(listeners := s.listeners - {topic}, cache := s.cache - {topic})
        else s.(listeners := s.listeners[topic := left])
  }

  /******* One connection to several topics *******/

  /** `toReplay` are the snapshots' frames still to be sent; `frames` is what
      went out on the wire. */
  datatype Connection = Connection(
    listener: Listener,
    topics: set<Topic>,
    subscribed: set<Topic>,
    toReplay: seq<Event>,
    frames: seq<Event>)

  /** What the client will have received once all that is under way arrives. */
  function Pipeline(s: State, c: Connection): seq<Event> {
    c.frames + c.toReplay + Queue(s.queues, c.listener)
  }

  type Owner = string -> Topic

  /** No two of the connection's topics ever hold the same item id. */
  ghost predicate Owned(owner: Owner, s: State, topics: set<Topic>) {
    forall topic, id :: topic in topics && id in Cached(s, topic) ==> owner(id) == topic
  }

  /** What the subscribed topics together hold under `id`. */
  function UnionAt(owner: Owner, s: State, subscribed: set<Topic>, id: string): Items {
    if owner(id) in subscribed then Cached(s, owner(id)) else map[]
  }

  ghost predicate OnlyAbout(owner: Owner, topics: set<Topic>, events: seq<Event>) {
    forall i :: 0 <= i < |events| ==> owner(events[i].Id()) in topics
  }

  ghost predicate ShowsUnion(owner: Owner, s: State, c: Connection) {
    forall id :: SameAt(Fold(map[], Pipeline(s, c)), UnionAt(owner, s, c.subscribed, id), id)
  }

  ghost predicate ListensTo(s: State, c: Connection) {
    forall topic :: Count(Listening(s, topic), c.listener) == if topic in c.subscribed then 1 else 0
  }

  /** Folding frames sent, frames to replay and queue gives the union of the
      subscribed topics' caches. */
  ghost predicate InStep(owner: Owner, s: State, c: Connection) {
    && c.subscribed <= c.topics
    && ListensTo(s, c)
    && OnlyAbout(owner, c.subscribed, Pipeline(s, c))
    && ShowsUnion(owner, s, c)
  }

  /******* Steps of others *******/

  ghost predicate AllOwned(owner: Owner, topic: Topic, events: seq<Event>) {
    forall i :: 0 <= i < |events| ==> owner(events[i].Id()) == topic
  }

  /** Events about one topic's ids move that topic's part of a view, no other. */
  lemma ViewFollows(
    owner: Owner, s: State, t: State, subscribed: set<Topic>, topic: Topic, view: Items, events: seq<Event>, id: string)
    requires SameAt(view, UnionAt(owner, s, subscribed, id), id)
    requires AllOwned(owner, topic, events)
    requires Cached(t, topic) == Fold(Cached(s, topic), events)
    requires forall other :: other != topic ==> Cached(t, other) == Cached(s, other)
    requires topic in subscribed
    ensures SameAt(Fold(view, events), UnionAt(owner, t, subscribed, id), id)
  {
    if owner(id) == topic {
      FoldIsPointwise(view, Cached(s, topic), events, id);
    } else {
      FoldUntouched(view, events, id);
    }
  }

  /** Publishing keeps every connection in step, listening or not. */
  lemma PublishKeepsInStep(
    owner: Owner, s: State, c: Connection, topic: Topic, items: Items, events: seq<Event>)
    requires InStep(owner, s, c)
    requires Fold(Cached(s, topic), events) == items
    requires topic in c.topics ==> AllOwned(owner, topic, events)
    ensures InStep(owner, Publish(s, topic, items, events), c)
  {
    var t := Publish(s, topic, items, events);
    assert ListensTo(t, c) by {
      assert forall other :: Listening(t, other) == Listening(s, other);
    }
    assert Count(Listening(s, topic), c.listener) == if topic in c.subscribed then 1 else 0;
    BroadcastToOne(s.queues, Listening(s, topic), events, c.listener);
    if topic in c.subscribed {
      PipelineGrows(owner, s, t, c, topic, events);
    } else {
      assert Pipeline(t, c) == Pipeline(s, c);
      forall id ensures SameAt(Fold(map[], Pipeline(t, c)), UnionAt(owner, t, c.subscribed, id), id) {
        assert SameAt(Fold(map[], Pipeline(s, c)), UnionAt(owner, s, c.subscribed, id), id);
      }
    }
  }

  lemma PipelineGrows(owner: Owner, s: State, t: State, c: Connection, topic: Topic, events: seq<Event>)
    requires OnlyAbout(owner, c.subscribed, Pipeline(s, c)) && ShowsUnion(owner, s, c)
    requires topic in c.subscribed && AllOwned(owner, topic, events)
    requires Queue(t.queues, c.listener) == Queue(s.queues, c.listener) + events
    requires Cached(t, topic) == Fold(Cached(s, topic), events)
    requires forall other :: other != topic ==> Cached(t, other) == Cached(s, other)
    ensures OnlyAbout(owner, c.subscribed, Pipeline(t, c)) && ShowsUnion(owner, t, c)
  {
    assert Pipeline(t, c) == Pipeline(s, c) + events;
    FoldConcat(map[], Pipeline(s, c), events);
    forall id ensures SameAt(Fold(map[], Pipeline(t, c)), UnionAt(owner, t, c.subscribed, id), id) {
      assert SameAt(Fold(map[], Pipeline(s, c)), UnionAt(owner, s, c.subscribed, id), id);
      ViewFollows(owner, s, t, c.subscribed, topic, Fold(map[], Pipeline(s, c)), events, id);
    }
  }

  /** The actions a connection does not take itself. */
  ghost predicate ByOthers(a: Action, c: Connection) {
    (a.Subscribe? || a.Unsubscribe?) ==> a.listener != c.listener
  }

  /** Whatever the others do, the connection stays in step. */
  lemma OthersKeepInStep(owner: Owner, s: State, a: Action, c: Connection)
    requires InStep(owner, s, c) && Legal(a) && ByOthers(a, c)
    requires Owned(owner, s, c.topics) && Owned(owner, Step(s, a), c.topics)
    ensures InStep(owner, Step(s, a), c)
  {
    hide InStep, Publish;
    match a
    case PollEnds(topic, before, polled, events) =>
      if Cached(s, topic) == before {
        DiffReaches(events, before, polled);
        if topic in c.topics {
          DiffOwned(owner, s, c, a);
        }
        PublishKeepsInStep(owner, s, c, topic, polled, events);
      }
    case UpdateOrInsert(topic, item) =>
      if topic in s.listeners {
        var event := if item.id in Cached(s, topic) then Updated(item) else Added(item);
        var items := Cached(s, topic)[item.id := item];
        FoldOne(Cached(s, topic), event);
        if topic in c.topics {
          PublishedIsCached(s, topic, items, [event]);
          assert item.id in items;
        }
        PublishKeepsInStep(owner, s, c, topic, items, [event]);
      }
    case Remove(topic, id) =>
      if topic in s.listeners && id in Cached(s, topic) {
        FoldOne(Cached(s, topic), Removed(id));
        PublishKeepsInStep(owner, s, c, topic, Cached(s, topic) - {id}, [Removed(id)]);
      }
    case Subscribe(topic, listener) => OthersSubscribe(owner, s, a, c);
    case Unsubscribe(topic, listener) => OthersUnsubscribe(owner, s, a, c);
  }

  lemma PublishedIsCached(s: State, topic: Topic, items: Items, events: seq<Event>)
    ensures Cached(Publish(s, topic, items, events), topic) == items
  {
  }

  lemma FoldOne(items: Items, event: Event)
    ensures Fold(items, [event]) == Apply(items, event)
  {
    assert [event][..0] == [];
  }

  lemma DiffOwned(owner: Owner, s: State, c: Connection, a: Action)
    requires a.PollEnds? && Legal(a) && a.topic in c.topics && Cached(s, a.topic) == a.before
    requires Owned(owner, s, c.topics) && Owned(owner, Step(s, a), c.topics)
    ensures AllOwned(owner, a.topic, a.events)
  {
    PublishedIsCached(s, a.topic, a.polled, a.events);
    forall i | 0 <= i < |a.events| ensures owner(a.events[i].Id()) == a.topic {
      assert IsChange(a.events[i], a.before, a.polled);
      assert a.events[i].Id() in Cached(s, a.topic) || a.events[i].Id() in Cached(Step(s, a), a.topic);
    }
  }

  lemma SameCachesStayInStep(owner: Owner, s: State, t: State, c: Connection)
    requires InStep(owner, s, c) && ListensTo(t, c) && t.queues == s.queues
    requires forall topic :: topic in c.subscribed ==> Cached(t, topic) == Cached(s, topic)
    ensures InStep(owner, t, c)
  {
    forall id ensures SameAt(Fold(map[], Pipeline(t, c)), UnionAt(owner, t, c.subscribed, id), id) {
      assert SameAt(Fold(map[], Pipeline(s, c)), UnionAt(owner, s, c.subscribed, id), id);
    }
  }

  lemma OthersSubscribe(owner: Owner, s: State, a: Action, c: Connection)
    requires InStep(owner, s, c) && a.Subscribe? && a.listener != c.listener
    ensures InStep(owner, Step(s, a), c)
  {
    CountAppended(Listening(s, a.topic), a.listener, c.listener);
    forall topic ensures Count(Listening(Step(s, a), topic), c.listener) == if topic in c.subscribed then 1 else 0 {
      assert Count(Listening(s, topic), c.listener) == if topic in c.subscribed then 1 else 0;
    }
    SameCachesStayInStep(owner, s, Step(s, a), c);
  }

  /** A topic the connection listens to keeps its cache: it is not the last. */
  lemma OthersUnsubscribe(owner: Owner, s: State, a: Action, c: Connection)
    requires InStep(owner, s, c) && a.Unsubscribe? && a.listener != c.listener
    ensures InStep(owner, Step(s, a), c)
  {
    CountRemoved(Listening(s, a.topic), a.listener, c.listener);
    forall topic ensures Count(Listening(Step(s, a), topic), c.listener) == if topic in c.subscribed then 1 else 0 {
      assert Count(Listening(s, topic), c.listener) == if topic in c.subscribed then 1 else 0;
    }
    SameCachesStayInStep(owner, s, Step(s, a), c);
  }

  /******* The connection's own steps *******/

  datatype Move =
    | Other(action: Action)
    | Join(topic: Topic, replay: seq<Event>)   // subscribe_and_snapshot
    | SendReplay
    | Forward

  /** All topics are joined first, then all snapshots are sent, then the queue
      is drained. */
  ghost predicate Enabled(s: State, c: Connection, m: Move) {
    match m
    case Other(a) => Legal(a) && ByOthers(a, c)
    case Join(topic, replay) => topic in c.topics - c.subscribed && IsReplay(replay, Cached(s, topic))
    case SendReplay => c.subscribed == c.topics && c.toReplay != []
    case Forward => c.subscribed == c.topics && c.toReplay == [] && Queue(s.queues, c.listener) != []
  }

  function StateAfter(s: State, c: Connection, m: Move): State {
    match m
    case Other(a) => Step(s, a)
    case Join(topic, _) => Step(s, Subscribe(topic, c.listener))
    case SendReplay => s
    case Forward =>
      var queue := Queue(s.queues, c.listener);
      s.(queues := s.queues[c.listener := if queue == [] then [] else queue[1..]])
  }

  function ConnectionAfter(s: State, c: Connection, m: Move): Connection {
    match m
    case Other(_) => c
    case Join(topic, replay) => c.(subscribed := c.subscribed + {topic}, toReplay := c.toReplay + replay)
    case SendReplay =>
      if c.toReplay == [] then c else c.(frames := c.frames + [c.toReplay[0]], toReplay := c.toReplay[1..])
    case Forward =>
      var queue := Queue(s.queues, c.listener);
      if queue == [] then c else c.(frames := c.frames + [queue[0]])
  }

  lemma JoinListens(s: State, c: Connection, topic: Topic, replay: seq<Event>)
    requires ListensTo(s, c) && topic !in c.subscribed
    ensures ListensTo(StateAfter(s, c, Join(topic, replay)), ConnectionAfter(s, c, Join(topic, replay)))
  {
    var t, d := StateAfter(s, c, Join(topic, replay)), ConnectionAfter(s, c, Join(topic, replay));
    CountAppended(Listening(s, topic), c.listener, c.listener);
    forall other ensures Count(Listening(t, other), d.listener) == if other in d.subscribed then 1 else 0 {
      assert Count(Listening(s, other), c.listener) == if other in c.subscribed then 1 else 0;
    }
  }

  /** Joining slips a snapshot in before the queue; since no event already
      under way is about the new topic's ids, the fold still comes out right. */
  lemma JoinKeepsInStep(owner: Owner, s: State, c: Connection, topic: Topic, replay: seq<Event>)
    requires InStep(owner, s, c) && Owned(owner, s, c.topics)
    requires Enabled(s, c, Join(topic, replay))
    ensures InStep(owner, StateAfter(s, c, Join(topic, replay)), ConnectionAfter(s, c, Join(topic, replay)))
  {
    hide ListensTo;
    var t, d := StateAfter(s, c, Join(topic, replay)), ConnectionAfter(s, c, Join(topic, replay));
    var before, queue := c.frames + c.toReplay, Queue(s.queues, c.listener);
    JoinListens(s, c, topic, replay);
    assert Pipeline(s, c) == before + queue && Pipeline(t, d) == before + replay + queue;
    OnlyAboutParts(owner, c.subscribed, before, queue);
    ReplayOwned(owner, s, c, topic, replay);
    forall id ensures SameAt(Fold(map[], Pipeline(t, d)), UnionAt(owner, t, d.subscribed, id), id) {
      assert SameAt(Fold(map[], Pipeline(s, c)), UnionAt(owner, s, c.subscribed, id), id);
      SnapshotSlipsIn(owner, c.subscribed, topic, before, replay, queue, Cached(s, topic), id);
    }
  }

  lemma ReplayOwned(owner: Owner, s: State, c: Connection, topic: Topic, replay: seq<Event>)
    requires Owned(owner, s, c.topics) && topic in c.topics && IsReplay(replay, Cached(s, topic))
    ensures AllOwned(owner, topic, replay)
  {
    forall i | 0 <= i < |replay| ensures owner(replay[i].Id()) == topic {
      assert IsChange(replay[i], map[], Cached(s, topic));
    }
  }

  lemma OnlyAboutParts(owner: Owner, topics: set<Topic>, first: seq<Event>, second: seq<Event>)
    requires OnlyAbout(owner, topics, first + second)
    ensures OnlyAbout(owner, topics, first) && OnlyAbout(owner, topics, second)
  {
    assert forall i :: 0 <= i < |first| ==> (first + second)[i] == first[i];
    assert forall i :: 0 <= i < |second| ==> (first + second)[|first| + i] == second[i];
  }

  lemma SnapshotSlipsIn(
    owner: Owner, subscribed: set<Topic>, topic: Topic, before: seq<Event>, replay: seq<Event>, queue: seq<Event>,
    snapshot: Items, id: string)
    requires topic !in subscribed
    requires OnlyAbout(owner, subscribed, before) && OnlyAbout(owner, subscribed, queue)
    requires AllOwned(owner, topic, replay) && IsReplay(replay, snapshot)
    ensures if owner(id) == topic then SameAt(Fold(map[], before + replay + queue), snapshot, id)
            else SameAt(Fold(map[], before + replay + queue), Fold(map[], before + queue), id)
  {
    FoldConcat(map[], before + replay, queue);
    FoldConcat(map[], before, replay);
    FoldConcat(map[], before, queue);
    var start := Fold(map[], before);
    if owner(id) == topic {
      FoldUntouched(map[], before, id);
      FoldIsPointwise(start, map[], replay, id);
      DiffReaches(replay, map[], snapshot);
      FoldUntouched(Fold(start, replay), queue, id);
    } else {
      FoldUntouched(start, replay, id);
      FoldIsPointwise(Fold(start, replay), start, queue, id);
    }
  }

  /** Sending only moves the line between what went out and what is to come. */
  lemma SendingKeepsInStep(owner: Owner, s: State, c: Connection, m: Move)
    requires InStep(owner, s, c) && Enabled(s, c, m) && (m.SendReplay? || m.Forward?)
    ensures InStep(owner, StateAfter(s, c, m), ConnectionAfter(s, c, m))
  {
    var t, d := StateAfter(s, c, m), ConnectionAfter(s, c, m);
    assert Pipeline(t, d) == Pipeline(s, c);
    assert ListensTo(t, d) by {
      assert forall topic :: Listening(t, topic) == Listening(s, topic);
    }
    forall id ensures SameAt(Fold(map[], Pipeline(t, d)), UnionAt(owner, t, d.subscribed, id), id) {
      assert SameAt(Fold(map[], Pipeline(s, c)), UnionAt(owner, s, c.subscribed, id), id);
    }
  }

  lemma MoveKeepsInStep(owner: Owner, s: State, c: Connection, m: Move)
    requires InStep(owner, s, c) && Enabled(s, c, m)
    requires Owned(owner, s, c.topics) && Owned(owner, StateAfter(s, c, m), c.topics)
    ensures InStep(owner, StateAfter(s, c, m), ConnectionAfter(s, c, m))
  {
    hide InStep;
    match m
    case Other(a) => OthersKeepInStep(owner, s, a, c);
    case Join(topic, replay) => JoinKeepsInStep(owner, s, c, topic, replay);
    case SendReplay => SendingKeepsInStep(owner, s, c, m);
    case Forward => SendingKeepsInStep(owner, s, c, m);
  }

  /******* Whole runs *******/

  /** A connection that has done nothing yet, with a listener nobody knows. */
  ghost predicate Opened(s: State, c: Connection) {
    && c.subscribed == {} && c.toReplay == [] && c.frames == []
    && Queue(s.queues, c.listener) == []
    && forall topic :: Count(Listening(s, topic), c.listener) == 0
  }

  ghost predicate IsRun(states: seq<State>, connections: seq<Connection>, moves: seq<Move>) {
    && |states| == |connections| == |moves| + 1
    && Opened(states[0], connections[0])
    && forall i :: 0 <= i < |moves| ==>
         && Enabled(states[i], connections[i], moves[i])
         && states[i + 1] == StateAfter(states[i], connections[i], moves[i])
         && connections[i + 1] == ConnectionAfter(states[i], connections[i], moves[i])
  }

  /** Along every run over topics with disjoint item ids, at every step, what
      was sent, what is still to be replayed and what is queued fold to the
      union of the joined topics' caches. */
  lemma {:induction false} RunStaysInStep(
    owner: Owner, states: seq<State>, connections: seq<Connection>, moves: seq<Move>, n: nat)
    requires IsRun(states, connections, moves) && n < |states|
    requires forall i :: 0 <= i < |states| ==> Owned(owner, states[i], connections[0].topics)
    ensures connections[n].topics == connections[0].topics
    ensures InStep(owner, states[n], connections[n])
  {
    hide InStep, Owned, Enabled, StateAfter;
    if n == 0 {
      OpenedIsInStep(owner, states[0], connections[0]);
    } else {
      RunStaysInStep(owner, states, connections, moves, n - 1);
      var i := n - 1;
      assert Enabled(states[i], connections[i], moves[i]);
      assert states[i + 1] == StateAfter(states[i], connections[i], moves[i]);
      assert connections[i + 1] == ConnectionAfter(states[i], connections[i], moves[i]);
      MoveKeepsInStep(owner, states[i], connections[i], moves[i]);
    }
  }

  lemma OpenedIsInStep(owner: Owner, s: State, c: Connection)
    requires Opened(s, c)
    ensures InStep(owner, s, c)
  {
    assert Pipeline(s, c) == [];
  }

  /** A client that has received everything holds exactly its topic's cache;
      with a single topic nothing is asked of the item ids. */
  lemma CaughtUpOnOneTopic(
    states: seq<State>, connections: seq<Connection>, moves: seq<Move>, n: nat, topic: Topic)
    requires IsRun(states, connections, moves) && n < |states|
    requires connections[0].topics == {topic} == connections[n].subscribed
    requires connections[n].toReplay == [] && Queue(states[n].queues, connections[n].listener) == []
    ensures Fold(map[], connections[n].frames) == Cached(states[n], topic)
  {
    var owner: Owner := (id: string) => topic;
    RunStaysInStep(owner, states, connections, moves, n);
    var s, c := states[n], connections[n];
    assert Pipeline(s, c) == c.frames;
    forall id ensures SameAt(Fold(map[], c.frames), Cached(s, topic), id) {
      assert SameAt(Fold(map[], Pipeline(s, c)), UnionAt(owner, s, c.subscribed, id), id);
    }
    SameEverywhere(Fold(map[], c.frames), Cached(s, topic));
  }

  /******* A client that reconnects *******/

  /** What a caught-up client shows that came with a map left over from an
      earlier connection: the topic's cache exactly when every left-over id was
      touched by a frame of this connection. */
  lemma ReconnectedShowsCacheIff(
    states: seq<State>, connections: seq<Connection>, moves: seq<Move>, n: nat, topic: Topic, leftOver: Items)
    requires IsRun(states, connections, moves) && n < |states|
    requires connections[0].topics == {topic} == connections[n].subscribed
    requires connections[n].toReplay == [] && Queue(states[n].queues, connections[n].listener) == []
    ensures Fold(leftOver, connections[n].frames) == Cached(states[n], topic) <==>
            forall id :: id in leftOver ==> Touches(connections[n].frames, id)
  {
    CaughtUpOnOneTopic(states, connections, moves, n, topic);
    LeftOverAgreesIff(leftOver, connections[n].frames);
  }

  /** A run from its first state and connection to its last. */
  ghost predicate RunFromTo(s: State, c: Connection, t: State, d: Connection) {
    exists states, connections, moves ::
      IsRun(states, connections, moves) && states[0] == s && connections[0] == c &&
      states[|states| - 1] == t && connections[|connections| - 1] == d
  }

  lemma RunStarts(s: State, c: Connection)
    requires Opened(s, c)
    ensures RunFromTo(s, c, s, c)
  {
    assert IsRun([s], [c], []);
  }

  lemma RunGoesOn(s: State, c: Connection, t: State, d: Connection, m: Move)
    requires RunFromTo(s, c, t, d) && Enabled(t, d, m)
    ensures RunFromTo(s, c, StateAfter(t, d, m), ConnectionAfter(t, d, m))
  {
    hide Enabled, StateAfter, ConnectionAfter, Opened;
    var states, connections, moves :|
      IsRun(states, connections, moves) && states[0] == s && connections[0] == c &&
      states[|states| - 1] == t && connections[|connections| - 1] == d;
    var more, others, longer := states + [StateAfter(t, d, m)], connections + [ConnectionAfter(t, d, m)], moves + [m];
    forall i | 0 <= i < |longer|
      ensures Enabled(more[i], others[i], longer[i])
      ensures more[i + 1] == StateAfter(more[i], others[i], longer[i])
      ensures others[i + 1] == ConnectionAfter(more[i], others[i], longer[i])
    {
      if i < |moves| {
        assert Enabled(states[i], connections[i], moves[i]);
      }
    }
    assert IsRun(more, others, longer);
  }

  function Fresh(listener: Listener, topic: Topic): Connection {
    Connection(listener, {topic}, {}, [], [])
  }

  /** Two connections of one client between which an item disappears: the
      second is caught up, a poll has found the source empty since, and the
      client still shows the item. */
  lemma StaleAfterReconnect(topic: Topic, item: Item)
    returns (left: State, first: Connection, end: State, second: Connection)
    ensures RunFromTo(State(map[], map[], map[]), Fresh(0, topic), left, first)
    ensures Fold(map[], first.frames) == Cached(left, topic) == map[item.id := item]
    ensures RunFromTo(Step(left, Unsubscribe(topic, first.listener)), Fresh(1, topic), end, second)
    ensures second.subscribed == {topic} && second.toReplay == [] && Queue(end.queues, second.listener) == []
    ensures Cached(end, topic) == map[] && Fold(Fold(map[], first.frames), second.frames) == map[item.id := item]
  {
    left, first := FirstConnection(topic, item);
    FoldOne(map[], Added(item));
    end, second := SecondConnection(topic, item, left, first);
  }

  lemma SentToOne(queues: map<Listener, seq<Event>>, listener: Listener, event: Event)
    ensures Broadcast(queues, [listener], [event]) == queues[listener := Queue(queues, listener) + [event]]
  {
    assert [event][..0] == [] && [listener][1..] == [];
    assert Deliver(queues, [listener], event) == queues[listener := Queue(queues, listener) + [event]];
  }

  /** Nothing is cached when the client joins; an item is written and sent. */
  lemma FirstConnection(topic: Topic, item: Item) returns (left: State, first: Connection)
    ensures RunFromTo(State(map[], map[], map[]), Fresh(0, topic), left, first)
    ensures first == Connection(0, {topic}, {topic}, [], [Added(item)])
    ensures left.cache == map[topic := map[item.id := item]] && left.listeners == map[topic := [0]]
    ensures left.queues == map[0 := []]
  {
    hide RunFromTo;
    var s, c := State(map[], map[], map[]), Fresh(0, topic);
    RunStarts(s, c);
    var s1, c1 := Joined(s, c, s, 0, topic);
    var s2 := Written(s1, 0, topic, item);
    RunGoesOn(s, c, s1, c1, Other(UpdateOrInsert(topic, item)));
    assert Queue(s2.queues, 0) == [Added(item)] && [Added(item)][1..] == [];
    RunGoesOn(s, c, s2, c1, Forward);
    left, first := StateAfter(s2, c1, Forward), ConnectionAfter(s2, c1, Forward);
  }

  /** A fresh client joins a topic that nobody listens to. */
  lemma Joined(s: State, c: Connection, t: State, listener: Listener, topic: Topic) returns (u: State, d: Connection)
    requires RunFromTo(s, c, t, Fresh(listener, topic)) && topic !in t.cache && topic !in t.listeners
    ensures RunFromTo(s, c, u, d) && d == Connection(listener, {topic}, {topic}, [], [])
    ensures u == t.(listeners := t.listeners[topic := [listener]])
  {
    hide RunFromTo;
    var client, join := Fresh(listener, topic), Join(topic, []);
    assert IsReplay([], Cached(t, topic));
    RunGoesOn(s, c, t, client, join);
    assert Listening(t, topic) + [listener] == [listener];
    u, d := StateAfter(t, client, join), ConnectionAfter(t, client, join);
  }

  lemma Written(s: State, listener: Listener, topic: Topic, item: Item) returns (t: State)
    requires s.cache == map[] && s.listeners == map[topic := [listener]] && s.queues == map[]
    ensures t == Step(s, UpdateOrInsert(topic, item))
    ensures t.cache == map[topic := map[item.id := item]] && t.listeners == s.listeners
    ensures t.queues == map[listener := [Added(item)]]
  {
    t := Step(s, UpdateOrInsert(topic, item));
    SentToOne(s.queues, listener, Added(item));
    assert Queue(s.queues, listener) + [Added(item)] == [Added(item)];
    assert Cached(s, topic)[item.id := item] == map[item.id := item];
  }

  /** The last listener's leaving cleared the cache; a poll then finds nothing
      new in an empty source. */
  lemma SecondConnection(topic: Topic, item: Item, left: State, first: Connection)
    returns (end: State, second: Connection)
    requires first == Connection(0, {topic}, {topic}, [], [Added(item)])
    requires left.listeners == map[topic := [0]] && left.queues == map[0 := []]
    ensures RunFromTo(Step(left, Unsubscribe(topic, 0)), Fresh(1, topic), end, second)
    ensures second == Connection(1, {topic}, {topic}, [], [])
    ensures Cached(end, topic) == map[] && Queue(end.queues, 1) == []
  {
    hide RunFromTo;
    var s, c := Step(left, Unsubscribe(topic, 0)), Fresh(1, topic);
    assert s.listeners == map[] && topic !in s.cache && s.queues == left.queues;
    RunStarts(s, c);
    var s1, c1 := Joined(s, c, s, 1, topic);
    var poll := Other(PollEnds(topic, map[], map[], []));
    RunGoesOn(s, c, s1, c1, poll);
    end, second := StateAfter(s1, c1, poll), ConnectionAfter(s1, c1, poll);
  }
}
