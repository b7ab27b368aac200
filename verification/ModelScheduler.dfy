/** cortexgrid/_model_scheduler.py, the actor: what models report, when a
    decision is due, and how one is made out of Ray's view of the cluster. */
module ModelScheduler {
  import opened Common
  import opened Graph
  import opened Sorting
  import opened PauseSearch
  import opened Sums
  import opened PauseDecision
  import opened ClusterOccupancy
  import opened ModelReports

  const PAUSE_DECISION_INTERVAL_S: real := 1.0
  const FORGET_MODELS_SILENT_FOR_S: real := 30.0

  /** What Ray's state API answers during one call: the pending actors of the
      first look, then the nodes and the actors, alive ones before pending. */
  datatype RayView = RayView(pendingAtFirst: seq<Actor>, nodes: seq<RayNode>, actors: seq<Actor>)

  function NodesOf(occupancy: Dict<string, Node>): seq<Node>
    requires occupancy.Valid()
  {
    seq(|occupancy.keys|, i requires 0 <= i < |occupancy.keys| =>
      assert occupancy.keys[i] in occupancy.keys;
      occupancy.at[occupancy.keys[i]])
  }

  /** The models with a replica placed on some node. */
  function Running(nodes: seq<Node>): set<string> {
    set i, name | 0 <= i < |nodes| && name in nodes[i].held.at :: name
  }

  /** Waiting replicas keep the time they were first seen waiting. */
  function SeenWaiting(waiting: seq<WaitingReplica>, before: map<string, real>, now: real): map<string, real> {
    map i | 0 <= i < |waiting| ::
      waiting[i].actorId := if waiting[i].actorId in before then before[waiting[i].actorId] else now
  }

  function EarlierSeen(seenAt: map<string, real>): (WaitingReplica, WaitingReplica) -> bool {
    (a: WaitingReplica, b: WaitingReplica) =>
      var since := (r: WaitingReplica) => if r.actorId in seenAt then seenAt[r.actorId] else 0.0;
      since(a) <= since(b)
  }

  function WaitingLongestFirst(waiting: seq<WaitingReplica>, seenAt: map<string, real>): seq<WaitingReplica> {
    SortBy(waiting, EarlierSeen(seenAt))
  }

  function SeenWith(seenAt: map<string, real>, replica: WaitingReplica): WaitingReplica -> bool {
    (r: WaitingReplica) =>
      r.actorId in seenAt && replica.actorId in seenAt && seenAt[r.actorId] == seenAt[replica.actorId]
  }

  /** The same replicas, those seen waiting earlier first, and those first seen
      at one time in their listed order. */
  lemma WaitingLongestFirstMeaning(waiting: seq<WaitingReplica>, seenAt: map<string, real>)
    requires forall r :: r in waiting ==> r.actorId in seenAt
    ensures var order := WaitingLongestFirst(waiting, seenAt);
      && multiset(order) == multiset(waiting)
      && (forall r :: r in order ==> r.actorId in seenAt)
      && (forall i, j :: 0 <= i < j < |order| ==> seenAt[order[i].actorId] <= seenAt[order[j].actorId])
      && forall r :: r in waiting ==> Filter(order, SeenWith(seenAt, r)) == Filter(waiting, SeenWith(seenAt, r))
  {
    hide SortBy, Filter;
    var order, le := WaitingLongestFirst(waiting, seenAt), EarlierSeen(seenAt);
    SortByAscending(waiting, le);
    SameElements(order, waiting);
    forall r ensures r in order <==> r in waiting {
      assert r in order <==> r in ToSet(order);
      assert r in waiting <==> r in ToSet(waiting);
    }
    forall r | r in waiting ensures Filter(order, SeenWith(seenAt, r)) == Filter(waiting, SeenWith(seenAt, r)) {
      SortByStable(waiting, le, r);
      FilterAlike(order, Tied(le, r), SeenWith(seenAt, r));
      FilterAlike(waiting, Tied(le, r), SeenWith(seenAt, r));
    }
  }

  lemma {:induction false} FilterAlike<T>(xs: seq<T>, p: T -> bool, q: T -> bool)
    requires forall x :: x in xs ==> (p(x) <==> q(x))
    ensures Filter(xs, p) == Filter(xs, q)
  {
    if xs != [] {
      FilterAlike(xs[1..], p, q);
    }
  }

  predicate AnyWaiting(actors: seq<Actor>) {
    exists i :: 0 <= i < |actors| && IsServeReplicaWaitingForRoom(actors[i])
  }

  /** `toPause` is a decision over the books of the view's nodes. */
  ghost predicate IsDecidedOn(
    models: Dict<string, ScheduledModel>, view: RayView, seenAt: map<string, real>, toPause: set<string>)
    requires models.Valid()
  {
    exists occupancy, choices ::
      AllBalanced(AliveNodes(view.nodes), view.actors, models.at.Keys, occupancy) &&
      IsDecision(models.at, ModelsRequiredDirectly(models), NodesOf(occupancy), Running(NodesOf(occupancy)),
        WaitingLongestFirst(WaitingReplicas(view.actors), seenAt), choices) &&
      toPause == UnionOf(choices)
  }

  lemma RunningIsScheduled(
    totals: Dict<string, Resources>, actors: seq<Actor>, scheduled: set<string>, occupancy: Dict<string, Node>)
    requires AllBalanced(totals, actors, scheduled, occupancy)
    ensures Running(NodesOf(occupancy)) <= scheduled
    ensures forall i :: 0 <= i < |NodesOf(occupancy)| ==> NodesOf(occupancy)[i].held.Valid()
  {
    forall i | 0 <= i < |occupancy.keys|
      ensures occupancy.at[occupancy.keys[i]].held.Valid() && occupancy.at[occupancy.keys[i]].held.at.Keys <= scheduled
    {
      var id := occupancy.keys[i];
      assert id in occupancy.keys && id in totals.at;
      assert Balanced(id, totals.at[id], actors, scheduled, occupancy.at[id]);
    }
  }

  /** Some replica of the class is placed on a node that is alive. */
  ghost predicate HasReplica(models: Dict<string, ScheduledModel>, view: RayView, name: string) {
    exists id, actor ::
      id in AliveNodes(view.nodes).at && actor in view.actors && actor.nodeId == Some(id) && actor.className == name
  }

  ghost function Placed(models: Dict<string, ScheduledModel>, view: RayView): set<string> {
    set name | name in models.at && HasReplica(models, view, name)
  }

  lemma RunningIffHasReplica(
    models: Dict<string, ScheduledModel>, view: RayView, occupancy: Dict<string, Node>, name: string)
    requires AllBalanced(AliveNodes(view.nodes), view.actors, models.at.Keys, occupancy)
    ensures name in Running(NodesOf(occupancy)) <==> name in models.at && HasReplica(models, view, name)
  {
    hide Balanced, HasReplica;
    var nodes := NodesOf(occupancy);
    if name in Running(nodes) {
      var i :| 0 <= i < |nodes| && name in nodes[i].held.at;
      assert occupancy.keys[i] in occupancy.keys;
      HeldMeansReplica(models, view, occupancy, occupancy.keys[i], name);
    }
    if name in models.at && HasReplica(models, view, name) {
      var id := ReplicaIsHeld(models, view, occupancy, name);
      assert id in occupancy.keys;
      var i :| 0 <= i < |occupancy.keys| && occupancy.keys[i] == id;
      assert nodes[i] == occupancy.at[id];
    }
  }

  lemma HeldMeansReplica(
    models: Dict<string, ScheduledModel>, view: RayView, occupancy: Dict<string, Node>, id: string, name: string)
    requires AllBalanced(AliveNodes(view.nodes), view.actors, models.at.Keys, occupancy)
    requires id in occupancy.at && name in occupancy.at[id].held.at
    ensures name in models.at && HasReplica(models, view, name)
  {
    var totals := AliveNodes(view.nodes);
    assert Balanced(id, totals.at[id], view.actors, models.at.Keys, occupancy.at[id]);
    var actor :| actor in view.actors && ReplicaOnNode(id, name)(actor);
    assert PlacedOn(actor, id);
  }

  lemma ReplicaIsHeld(
    models: Dict<string, ScheduledModel>, view: RayView, occupancy: Dict<string, Node>, name: string)
    returns (id: string)
    requires AllBalanced(AliveNodes(view.nodes), view.actors, models.at.Keys, occupancy)
    requires name in models.at && HasReplica(models, view, name)
    ensures id in occupancy.at && name in occupancy.at[id].held.at
  {
    var totals := AliveNodes(view.nodes);
    var actor;
    id, actor :| id in totals.at && actor in view.actors && actor.nodeId == Some(id) && actor.className == name;
    assert Balanced(id, totals.at[id], view.actors, models.at.Keys, occupancy.at[id]);
    assert ReplicaOnNode(id, name)(actor);
  }

  /** In the terms of Ray's view: what is to be paused is known, idle and
      placed, and nothing placed that requires it is left out. */
  lemma DecidedOnIsSafe(
    models: Dict<string, ScheduledModel>, view: RayView, seenAt: map<string, real>, toPause: set<string>)
    requires models.Valid() && IsDecidedOn(models, view, seenAt, toPause)
    ensures toPause <= Placed(models, view) && Idle(models.at, toPause)
    ensures DependentsClosed(ModelsRequiredDirectly(models), Placed(models, view), toPause)
  {
    hide Balanced, IsDecision, HasReplica, Running, NodesOf, Idle, ModelsRequiredDirectly;
    var occupancy, choices :|
      AllBalanced(AliveNodes(view.nodes), view.actors, models.at.Keys, occupancy) &&
      IsDecision(models.at, ModelsRequiredDirectly(models), NodesOf(occupancy), Running(NodesOf(occupancy)),
        WaitingLongestFirst(WaitingReplicas(view.actors), seenAt), choices) &&
      toPause == UnionOf(choices);
    var required, nodes := ModelsRequiredDirectly(models), NodesOf(occupancy);
    var waiting := WaitingLongestFirst(WaitingReplicas(view.actors), seenAt);
    DecisionIsSafe(models.at, required, nodes, Running(nodes), waiting, choices);
    DecisionLeavesNoDependent(models.at, required, nodes, Running(nodes), waiting, choices);
    RunningIsPlaced(models, view, occupancy);
  }

  /** Stopping `names` leaves room on the node `id`: what it has, less what its
      actors ask for, plus what the stopped models' replicas ask for. */
  ghost predicate FreesInView(view: RayView, id: string, needed: Resources, names: set<string>)
    requires id in AliveNodes(view.nodes).at
  {
    forall name :: name in needed ==>
      var total := AliveNodes(view.nodes).at[id];
      (if name in total then total[name] else 0.0) - AskedOn(view.actors, id, None, name)
      + Sum(names, (model: string) => AskedOn(view.actors, id, Some(model), name)) + 0.000001 >= needed[name]
  }

  ghost predicate SomeNodeFrees(view: RayView, needed: Resources, names: set<string>) {
    exists id :: id in AliveNodes(view.nodes).at && FreesInView(view, id, needed, names)
  }

  lemma FreesAsInView(
    models: Dict<string, ScheduledModel>, view: RayView, id: string, node: Node, needed: Resources, names: set<string>)
    requires id in AliveNodes(view.nodes).at && names <= models.at.Keys
    requires Balanced(id, AliveNodes(view.nodes).at[id], view.actors, models.at.Keys, node)
    ensures Frees(needed, node, names) <==> FreesInView(view, id, needed, names)
  {
    forall name
      ensures HeldBy(node, names, name) == Sum(names, (model: string) => AskedOn(view.actors, id, Some(model), name))
      ensures AskedOn(view.actors, id, None, name) == ReservedBy(view.actors, OnNode(id), name)
    {
      AskedIsReserved(view.actors, id, None, name);
      forall model: string ensures
        AskedOn(view.actors, id, Some(model), name) == ReservedBy(view.actors, ReplicaOnNode(id, model), name)
      {
        AskedIsReserved(view.actors, id, Some(model), name);
      }
      SumPointwise(names, (model: string) => Held(node, model, name),
        (model: string) => AskedOn(view.actors, id, Some(model), name));
    }
  }

  lemma SomeNodeFreesIff(
    models: Dict<string, ScheduledModel>, view: RayView, occupancy: Dict<string, Node>, needed: Resources,
    names: set<string>)
    requires AllBalanced(AliveNodes(view.nodes), view.actors, models.at.Keys, occupancy) && names <= models.at.Keys
    ensures SomeNodeFrees(view, needed, names) <==>
            exists n :: 0 <= n < |NodesOf(occupancy)| && Frees(needed, NodesOf(occupancy)[n], names)
  {
    hide Balanced, Frees, FreesInView;
    var nodes := NodesOf(occupancy);
    if id :| id in AliveNodes(view.nodes).at && FreesInView(view, id, needed, names) {
      FreesAsInView(models, view, id, occupancy.at[id], needed, names);
      assert id in occupancy.keys;
      var n :| 0 <= n < |occupancy.keys| && occupancy.keys[n] == id;
      assert Frees(needed, nodes[n], names);
    }
    if n :| 0 <= n < |nodes| && Frees(needed, nodes[n], names) {
      assert occupancy.keys[n] in occupancy.keys;
      FreesAsInView(models, view, occupancy.keys[n], nodes[n], needed, names);
    }
  }

  lemma RoomIsFreeingNothing(nodes: seq<Node>, needed: Resources)
    ensures SomeNodeHasRoom(needed, nodes) <==> exists n :: 0 <= n < |nodes| && Frees(needed, nodes[n], {})
  {
    forall n | 0 <= n < |nodes| ensures HasRoomFor(needed, nodes[n].free) <==> Frees(needed, nodes[n], {}) {
      FreesNothing(needed, nodes[n], {});
    }
  }

  /** Nothing is chosen for a replica that some node has room for; otherwise
      something is exactly when it would help to pause some set that may be. */
  ghost predicate CompleteInView(
    models: Dict<string, ScheduledModel>, view: RayView, running: set<string>, replica: WaitingReplica,
    chosen: set<string>)
    requires models.Valid()
  {
    if SomeNodeFrees(view, replica.required, {}) then chosen == {}
    else chosen != {} <==>
      exists names ::
        MayPause(models.at, ModelsRequiredDirectly(models), running, replica.className, names) &&
        SomeNodeFrees(view, replica.required, names)
  }

  ghost predicate AllCompleteInView(
    models: Dict<string, ScheduledModel>, view: RayView, waiting: seq<WaitingReplica>, choices: seq<set<string>>)
    requires models.Valid()
  {
    |choices| == |waiting| &&
    forall i :: 0 <= i < |choices| ==>
      CompleteInView(models, view, Placed(models, view) - UnionOf(choices[..i]), waiting[i], choices[i])
  }

  /** In the same terms, completeness: what is to be paused is made of one
      choice per waiting replica, and each is complete for what the earlier
      ones left, provided nobody reserves a negative amount. */
  lemma DecidedOnIsComplete(
    models: Dict<string, ScheduledModel>, view: RayView, seenAt: map<string, real>, toPause: set<string>)
    requires models.Valid() && IsDecidedOn(models, view, seenAt, toPause)
    requires forall actor, name :: actor in view.actors ==> Amount(Reserved(actor), name) >= 0.0
    ensures exists choices ::
      toPause == UnionOf(choices) &&
      AllCompleteInView(models, view, WaitingLongestFirst(WaitingReplicas(view.actors), seenAt), choices)
  {
    hide Balanced, IsDecision, HasReplica, Running, NodesOf, ModelsRequiredDirectly, CompleteInView;
    var occupancy, choices :|
      AllBalanced(AliveNodes(view.nodes), view.actors, models.at.Keys, occupancy) &&
      IsDecision(models.at, ModelsRequiredDirectly(models), NodesOf(occupancy), Running(NodesOf(occupancy)),
        WaitingLongestFirst(WaitingReplicas(view.actors), seenAt), choices) &&
      toPause == UnionOf(choices);
    var waiting := WaitingLongestFirst(WaitingReplicas(view.actors), seenAt);
    DecisionHasOnePerReplica(models, occupancy, waiting, choices);
    forall i | 0 <= i < |choices|
      ensures CompleteInView(models, view, Placed(models, view) - UnionOf(choices[..i]), waiting[i], choices[i])
    {
      ChoiceIsCompleteInView(models, view, occupancy, waiting, choices, i);
    }
    assert AllCompleteInView(models, view, waiting, choices);
  }

  lemma DecisionHasOnePerReplica(
    models: Dict<string, ScheduledModel>, occupancy: Dict<string, Node>, waiting: seq<WaitingReplica>,
    choices: seq<set<string>>)
    requires models.Valid() && occupancy.Valid()
    requires IsDecision(models.at, ModelsRequiredDirectly(models), NodesOf(occupancy), Running(NodesOf(occupancy)),
      waiting, choices)
    ensures |choices| == |waiting|
  {
  }

  lemma ChoiceIsCompleteInView(
    models: Dict<string, ScheduledModel>, view: RayView, occupancy: Dict<string, Node>, waiting: seq<WaitingReplica>,
    choices: seq<set<string>>, i: nat)
    requires models.Valid() && AllBalanced(AliveNodes(view.nodes), view.actors, models.at.Keys, occupancy)
    requires forall actor, name :: actor in view.actors ==> Amount(Reserved(actor), name) >= 0.0
    requires IsDecision(models.at, ModelsRequiredDirectly(models), NodesOf(occupancy), Running(NodesOf(occupancy)),
      waiting, choices)
    requires i < |choices| == |waiting|
    ensures CompleteInView(models, view, Placed(models, view) - UnionOf(choices[..i]), waiting[i], choices[i])
  {
    hide Balanced, IsDecision, HasReplica, Running, NodesOf, ModelsRequiredDirectly, Frees, SomeNodeFrees, MayPause,
      UnionOf;
    var required, nodes, needed := ModelsRequiredDirectly(models), NodesOf(occupancy), waiting[i].required;
    NodesHoldNoDebt(models, view, occupancy);
    DecisionIsComplete(models.at, required, nodes, Running(nodes), waiting, choices, i);
    RoomIsFreeingNothing(nodes, needed);
    SomeNodeFreesIff(models, view, occupancy, needed, {});
    RunningIsPlaced(models, view, occupancy);
    var running := Placed(models, view) - UnionOf(choices[..i]);
    forall names | MayPause(models.at, required, running, waiting[i].className, names)
      ensures SomeNodeFrees(view, needed, names) <==> exists n :: 0 <= n < |nodes| && Frees(needed, nodes[n], names)
    {
      PausedAreKnown(models, required, running, waiting[i].className, names);
      SomeNodeFreesIff(models, view, occupancy, needed, names);
    }
  }

  lemma PausedAreKnown(
    models: Dict<string, ScheduledModel>, required: Edges<string>, running: set<string>, className: string,
    names: set<string>)
    requires MayPause(models.at, required, running, className, names)
    ensures names <= models.at.Keys
  {
  }

  lemma RunningIsPlaced(models: Dict<string, ScheduledModel>, view: RayView, occupancy: Dict<string, Node>)
    requires AllBalanced(AliveNodes(view.nodes), view.actors, models.at.Keys, occupancy)
    ensures Running(NodesOf(occupancy)) == Placed(models, view)
  {
    hide Balanced, Running, HasReplica;
    forall name ensures name in Running(NodesOf(occupancy)) <==> name in Placed(models, view) {
      RunningIffHasReplica(models, view, occupancy, name);
    }
  }

  lemma NodesHoldNoDebt(models: Dict<string, ScheduledModel>, view: RayView, occupancy: Dict<string, Node>)
    requires AllBalanced(AliveNodes(view.nodes), view.actors, models.at.Keys, occupancy)
    requires forall actor, name :: actor in view.actors ==> Amount(Reserved(actor), name) >= 0.0
    ensures forall n :: 0 <= n < |NodesOf(occupancy)| ==>
      NodesOf(occupancy)[n].held.Valid() && HoldsNoDebt(NodesOf(occupancy)[n])
  {
    hide HoldsNoDebt;
    forall n | 0 <= n < |occupancy.keys|
      ensures NodesOf(occupancy)[n].held.Valid() && HoldsNoDebt(NodesOf(occupancy)[n])
    {
      var id := occupancy.keys[n];
      assert id in occupancy.keys;
      NoDebt(id, AliveNodes(view.nodes).at[id], view.actors, models.at.Keys, occupancy.at[id]);
    }
  }

  /** The loop over the waiting replicas. */
  method DecideFor(
    models: Dict<string, ScheduledModel>, nodes: seq<Node>, waiting: seq<WaitingReplica>)
    returns (toPause: set<string>)
    requires models.Valid()
    requires Running(nodes) <= models.at.Keys
    requires forall i :: 0 <= i < |nodes| ==> nodes[i].held.Valid()
    ensures exists choices ::
      IsDecision(models.at, ModelsRequiredDirectly(models), nodes, Running(nodes), waiting, choices) &&
      toPause == UnionOf(choices)
  {
    var running := Running(nodes);
    var required := ModelsRequiredDirectly(models);
    toPause := {};
    ghost var choices: seq<set<string>> := [];
    var i := 0;
    while i < |waiting|
      invariant 0 <= i <= |waiting|
      invariant IsDecision(models.at, required, nodes, running, waiting[..i], choices)
      invariant toPause == UnionOf(choices)
    {
      var chosen := ChooseFor(models.at, required, nodes, running - toPause, waiting[i]);
      DecisionOfNext(models.at, required, nodes, running, waiting[..i], choices, waiting[i], chosen);
      assert waiting[..i + 1] == waiting[..i] + [waiting[i]];
      choices := choices + [chosen];
      toPause := toPause + chosen;
      i := i + 1;
    }
    assert waiting[..i] == waiting;
  }

  lemma DecisionOfNext(
    models: Models, required: Edges<string>, nodes: seq<Node>, running: set<string>,
    waiting: seq<WaitingReplica>, choices: seq<set<string>>, next: WaitingReplica, chosen: set<string>)
    requires IsDecision(models, required, nodes, running, waiting, choices)
    requires IsChoice(models, required, nodes, running - UnionOf(choices), next, chosen)
    ensures IsDecision(models, required, nodes, running, waiting + [next], choices + [chosen])
    ensures UnionOf(choices + [chosen]) == UnionOf(choices) + chosen
  {
    hide IsChoice;
    var longer := choices + [chosen];
    forall i | 0 <= i < |longer|
      ensures IsChoice(models, required, nodes, running - UnionOf(longer[..i]), (waiting + [next])[i], longer[i])
    {
      assert longer[..i] == if i < |choices| then choices[..i] else choices;
    }
    assert longer[|choices|] == chosen;
    forall name | name in UnionOf(choices) ensures name in UnionOf(longer) {
      var i :| 0 <= i < |choices| && name in choices[i];
      assert longer[i] == choices[i];
    }
  }

  /** The body of that loop: one waiting replica. */
  method ChooseFor(
    models: Models, required: Edges<string>, nodes: seq<Node>, running: set<string>, replica: WaitingReplica)
    returns (chosen: set<string>)
    requires running <= models.Keys
    requires forall i :: 0 <= i < |nodes| ==> nodes[i].held.Valid()
    ensures IsChoice(models, required, nodes, running, replica, chosen)
  {
    hide AreGroups, IsFewest;
    var unpausable := Search(replica.className, required);
    var groups := PauseGroups(models, running, replica.className, {replica.className} + unpausable, required);
    chosen := FewestIdleModelsToPauseFor(models, replica.required, nodes, groups);
  }

  ghost predicate IsWaiting(actors: seq<Actor>, id: string) {
    exists actor :: actor in actors && AwaitsRoom()(actor) && actor.actorId == id
  }

  /** Since when each actor waiting for room has been seen waiting: since now
      if it was not waiting before. */
  ghost predicate WaitsSince(
    actors: seq<Actor>, before: map<string, real>, now: real, since: map<string, real>)
  {
    && (forall id :: id in since <==> IsWaiting(actors, id))
    && (forall id :: id in since ==> since[id] == if id in before then before[id] else now)
  }

  lemma WaitingIds(actors: seq<Actor>, id: string)
    ensures IsWaiting(actors, id) <==>
      exists k :: 0 <= k < |WaitingReplicas(actors)| && WaitingReplicas(actors)[k].actorId == id
  {
    var picks := WaitingMeaning(actors);
    hide WaitingReplicas, AwaitsRoom;
    if actor :| actor in actors && AwaitsRoom()(actor) && actor.actorId == id {
      var i: nat :| i < |actors| && actors[i] == actor;
      assert i in picks;
      var k :| 0 <= k < |picks| && picks[k] == i;
      assert WaitingReplicas(actors)[k].actorId == id;
    }
    if k :| 0 <= k < |WaitingReplicas(actors)| && WaitingReplicas(actors)[k].actorId == id {
      assert picks[k] in picks && actors[picks[k]] in actors;
    }
  }

  lemma SeenWaitingMeaning(actors: seq<Actor>, before: map<string, real>, now: real)
    ensures WaitsSince(actors, before, now, SeenWaiting(WaitingReplicas(actors), before, now))
  {
    hide WaitingReplicas, IsWaiting;
    forall id ensures IsWaiting(actors, id) <==>
      exists k :: 0 <= k < |WaitingReplicas(actors)| && WaitingReplicas(actors)[k].actorId == id
    {
      WaitingIds(actors, id);
    }
  }

  lemma AnyWaitingMeaning(actors: seq<Actor>)
    ensures AnyWaiting(actors) <==> exists actor :: actor in actors && AwaitsRoom()(actor)
  {
    forall i | 0 <= i < |actors| ensures IsServeReplicaWaitingForRoom(actors[i]) <==> AwaitsRoom()(actors[i]) {
      PrefixIs(actors[i]);
    }
    hide AwaitsRoom, IsServeReplicaWaitingForRoom;
    if actor :| actor in actors && AwaitsRoom()(actor) {
      var i :| 0 <= i < |actors| && actors[i] == actor;
      assert IsServeReplicaWaitingForRoom(actors[i]);
    }
  }

  /** Nothing while no actor waits for room; otherwise a decision for those
      that do, whoever has waited longest first. */
  ghost predicate IsSelected(
    models: Dict<string, ScheduledModel>, view: RayView, before: map<string, real>, now: real, since: map<string, real>,
    toPause: set<string>)
    requires models.Valid()
  {
    if exists actor :: actor in view.pendingAtFirst && AwaitsRoom()(actor) then
      WaitsSince(view.actors, before, now, since) && IsDecidedOn(models, view, since, toPause)
    else toPause == {} && since == map[]
  }

  /** A model with requests is never selected. */
  lemma BusyIsNotSelected(
    models: Dict<string, ScheduledModel>, view: RayView, before: map<string, real>, now: real, since: map<string, real>,
    toPause: set<string>, name: string)
    requires models.Valid() && IsSelected(models, view, before, now, since, toPause)
    requires name in models.at && models.at[name].hasRequests
    ensures name !in toPause
  {
    hide IsDecidedOn;
    if name in toPause {
      DecidedOnIsSafe(models, view, since, toPause);
    }
  }

  lemma StillKnown(
    models: Dict<string, ScheduledModel>, className: string, appName: string, requiredApps: seq<string>,
    hasRequests: bool, now: real)
    requires models.Valid()
    ensures var reported := Reported(models, className, appName, requiredApps, hasRequests, now);
            var heard := HeardSince(reported, now - FORGET_MODELS_SILENT_FOR_S);
            className in heard.at && heard.at[className].hasRequests == hasRequests
  {
  }

  lemma AfterMore(happened: seq<Happening>, next: Happening)
    ensures After(happened + [next]) == Taken(After(happened), next)
  {
    assert (happened + [next])[..|happened|] == happened;
  }

  class Scheduler {
    var models: Dict<string, ScheduledModel>
    var modelsToPause: set<string>
    var lastPauseDecisionAt: Option<real>  // None before the first decision
    var firstSeenWaitingAt: map<string, real>
    ghost var happened: seq<Happening>

    ghost predicate Valid()
      reads this
    {
      models == After(happened)
    }

    constructor ()
      ensures Valid()
      ensures models.at == map[] && modelsToPause == {} && lastPauseDecisionAt == None && firstSeenWaitingAt == map[]
      ensures happened == []
    {
      happened := [];
      models := Dict([], map[]);
      modelsToPause := {};
      lastPauseDecisionAt := None;
      firstSeenWaitingAt := map[];
    }

    predicate DecisionDue(now: real)
      reads this
    {
      lastPauseDecisionAt == None || now - lastPauseDecisionAt.value >= PAUSE_DECISION_INTERVAL_S
    }

    /** One report. At most once per interval it is followed by a fresh
        decision over the models heard from lately; otherwise the answer comes
        from the last decision. */
    method RecordActivityAndCheckPause(
      className: string, appName: string, requiredApps: seq<string>, hasRequests: bool, now: real, view: RayView)
      returns (pause: bool)
      requires Valid()
      modifies this
      ensures Valid()
      ensures pause <==> className in modelsToPause
      ensures var report := Report(className, appName, requiredApps, hasRequests, now);
        if old(lastPauseDecisionAt).Some? && now - old(lastPauseDecisionAt).value < 1.0 then
          happened == old(happened) + [report] && modelsToPause == old(modelsToPause) &&
          lastPauseDecisionAt == old(lastPauseDecisionAt) && firstSeenWaitingAt == old(firstSeenWaitingAt)
        else
          happened == old(happened) + [report, Forget(now - 30.0)] && lastPauseDecisionAt == Some(now) &&
          IsSelected(models, view, old(firstSeenWaitingAt), now, firstSeenWaitingAt, modelsToPause) &&
          (hasRequests ==> !pause)
    {
      hide IsDecidedOn, IsSelected, After, Reported, HeardSince;
      ghost var report := Report(className, appName, requiredApps, hasRequests, now);
      AfterMore(happened, report);
      models := Reported(models, className, appName, requiredApps, hasRequests, now);
      happened := happened + [report];
      if DecisionDue(now) {
        lastPauseDecisionAt := Some(now);
        AfterMore(happened, Forget(now - FORGET_MODELS_SILENT_FOR_S));
        models := HeardSince(models, now - FORGET_MODELS_SILENT_FOR_S);
        happened := happened + [Forget(now - FORGET_MODELS_SILENT_FOR_S)];
        assert happened == old(happened) + [report, Forget(now - 30.0)];
        modelsToPause := SelectModelsToPause(now, view);
        StillKnown(old(models), className, appName, requiredApps, hasRequests, now);
        if hasRequests {
          BusyIsNotSelected(models, view, old(firstSeenWaitingAt), now, firstSeenWaitingAt, modelsToPause, className);
        }
      }
      pause := className in modelsToPause;
    }

    method SelectModelsToPause(now: real, view: RayView) returns (toPause: set<string>)
      requires Valid()
      modifies this`firstSeenWaitingAt
      ensures Valid() && IsSelected(models, view, old(firstSeenWaitingAt), now, firstSeenWaitingAt, toPause)
    {
      AnyWaitingMeaning(view.pendingAtFirst);
      SeenWaitingMeaning(view.actors, firstSeenWaitingAt, now);
      if !AnyWaiting(view.pendingAtFirst) {
        firstSeenWaitingAt := map[];
        return {};
      }
      var occupancy, waiting := ReadClusterOccupancy(view.nodes, view.actors, models.at.Keys);
      firstSeenWaitingAt := SeenWaiting(waiting, firstSeenWaitingAt, now);
      RunningIsScheduled(AliveNodes(view.nodes), view.actors, models.at.Keys, occupancy);
      toPause := DecideFor(models, NodesOf(occupancy), WaitingLongestFirst(waiting, firstSeenWaitingAt));
    }
  }
}
