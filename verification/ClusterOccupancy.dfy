/** cortexgrid/_model_scheduler.py, `_read_cluster_occupancy`: what is free and
    who holds what, out of Ray's list of nodes and list of actors. */
module ClusterOccupancy {
  import opened Common
  import opened PauseSearch
  import opened Sums

  datatype RayNode = RayNode(nodeId: string, alive: bool, resources: Resources)

  datatype ActorState = Alive | PendingCreation | OtherState

  datatype Actor = Actor(
    actorId: string,
    className: string,
    state: ActorState,
    nodeId: Option<string>,
    requiredResources: Option<Resources>)

  const SERVE_REPLICA_CLASS_PREFIX := "ServeReplica:"

  predicate IsServeReplicaWaitingForRoom(actor: Actor) {
    actor.state == PendingCreation && actor.nodeId == None && SERVE_REPLICA_CLASS_PREFIX <= actor.className
  }

  function Reserved(actor: Actor): Resources {
    if actor.requiredResources.Some? then actor.requiredResources.value else map[]
  }

  predicate PlacedOn(actor: Actor, nodeId: string) {
    !IsServeReplicaWaitingForRoom(actor) && actor.nodeId == Some(nodeId)
  }

  function OnNode(nodeId: string): Actor -> bool {
    (actor: Actor) => PlacedOn(actor, nodeId)
  }

  function ReplicaOnNode(nodeId: string, model: string): Actor -> bool {
    (actor: Actor) => PlacedOn(actor, nodeId) && actor.className == model
  }

  /** The amount of resource `name` reserved by the actors that satisfy `p`. */
  ghost function ReservedBy(actors: seq<Actor>, p: Actor -> bool, name: string): real {
    if actors == [] then 0.0
    else
      ReservedBy(actors[..|actors| - 1], p, name)
      + (if p(actors[|actors| - 1]) then Amount(Reserved(actors[|actors| - 1]), name) else 0.0)
  }

  /** The alive nodes, as a dict from node id to what Ray lists for it. */
  function AliveNodes(nodes: seq<RayNode>): (alive: Dict<string, Resources>)
    ensures alive.Valid()
    ensures forall id :: id in alive.at <==> exists i :: 0 <= i < |nodes| && nodes[i].alive && nodes[i].nodeId == id
  {
    if nodes == [] then Dict([], map[])
    else
      var rest, last := nodes[..|nodes| - 1], nodes[|nodes| - 1];
      assert nodes == rest + [last];
      if last.alive then AliveNodes(rest).Put(last.nodeId, last.resources) else AliveNodes(rest)
  }

  function WaitingOf(actor: Actor): WaitingReplica {
    WaitingReplica(actor.actorId, actor.className, Reserved(actor))
  }

  /** The replicas waiting for room, in the order the actors are listed. */
  function WaitingReplicas(actors: seq<Actor>): seq<WaitingReplica> {
    if actors == [] then []
    else
      WaitingReplicas(actors[..|actors| - 1])
      + (if IsServeReplicaWaitingForRoom(actors[|actors| - 1]) then [WaitingOf(actors[|actors| - 1])] else [])
  }

  /** One node's books after charging `actors`: what is free is the total less
      what the placed actors reserve, and each scheduled model holds exactly
      what its own placed replicas reserve. */
  ghost predicate Balanced(
    id: string, total: Resources, actors: seq<Actor>, scheduled: set<string>, node: Node)
  {
    && node.held.Valid()
    && (forall name :: Amount(node.free, name) ==
          Amount(total, name) - ReservedBy(actors, OnNode(id), name))
    && (forall model, name :: model in scheduled ==>
          Held(node, model, name) == ReservedBy(actors, ReplicaOnNode(id, model), name))
    && (forall model :: model in node.held.at <==>
          model in scheduled && exists a :: a in actors && ReplicaOnNode(id, model)(a))
  }

  ghost predicate AllBalanced(
    totals: Dict<string, Resources>, actors: seq<Actor>, scheduled: set<string>, occupancy: Dict<string, Node>)
  {
    && occupancy.Valid() && occupancy.keys == totals.keys && occupancy.at.Keys == totals.at.Keys
    && forall id :: id in totals.at ==>
         Balanced(id, totals.at[id], actors, scheduled, occupancy.at[id])
  }

  lemma BalancedElsewhere(
    id: string, total: Resources, actors: seq<Actor>, actor: Actor, scheduled: set<string>, node: Node)
    requires Balanced(id, total, actors, scheduled, node)
    requires !PlacedOn(actor, id)
    ensures Balanced(id, total, actors + [actor], scheduled, node)
  {
    ReservedByElsewhere(id, actors, actor);
    forall model ensures
      (exists a :: a in actors + [actor] && ReplicaOnNode(id, model)(a)) <==>
      (exists a :: a in actors && ReplicaOnNode(id, model)(a))
    {
    }
  }

  lemma ReservedByElsewhere(id: string, actors: seq<Actor>, actor: Actor)
    requires !PlacedOn(actor, id)
    ensures forall name :: ReservedBy(actors + [actor], OnNode(id), name) == ReservedBy(actors, OnNode(id), name)
    ensures forall model, name ::
      ReservedBy(actors + [actor], ReplicaOnNode(id, model), name) == ReservedBy(actors, ReplicaOnNode(id, model), name)
  {
    assert (actors + [actor])[..|actors|] == actors;
  }

  lemma ReservedByOneMore(actors: seq<Actor>, actor: Actor, p: Actor -> bool, name: string)
    ensures ReservedBy(actors + [actor], p, name) ==
            ReservedBy(actors, p, name) + (if p(actor) then Amount(Reserved(actor), name) else 0.0)
  {
    assert (actors + [actor])[..|actors|] == actors;
  }

  /** `charged` is `node` with the actor's reservation taken from what is free
      and, when its class is scheduled, added to what that class holds. */
  ghost predicate IsCharged(node: Node, actor: Actor, scheduled: set<string>, charged: Node) {
    && charged.held.Valid()
    && (forall name :: Amount(charged.free, name) == Amount(node.free, name) - Amount(Reserved(actor), name))
    && charged.held.at.Keys ==
         node.held.at.Keys + (if actor.className in scheduled then {actor.className} else {})
    && forall model, name :: Held(charged, model, name) ==
         Held(node, model, name) +
         (if model == actor.className && model in scheduled then Amount(Reserved(actor), name) else 0.0)
  }

  lemma BalancedCharged(
    id: string, total: Resources, actors: seq<Actor>, actor: Actor, scheduled: set<string>, node: Node, charged: Node)
    requires Balanced(id, total, actors, scheduled, node)
    requires PlacedOn(actor, id) && IsCharged(node, actor, scheduled, charged)
    ensures Balanced(id, total, actors + [actor], scheduled, charged)
  {
    forall name ensures
      Amount(charged.free, name) == Amount(total, name) - ReservedBy(actors + [actor], OnNode(id), name)
    {
      ReservedByOneMore(actors, actor, OnNode(id), name);
    }
    forall model, name | model in scheduled ensures
      Held(charged, model, name) == ReservedBy(actors + [actor], ReplicaOnNode(id, model), name)
    {
      ReservedByOneMore(actors, actor, ReplicaOnNode(id, model), name);
    }
    forall model ensures
      (exists a :: a in actors + [actor] && ReplicaOnNode(id, model)(a)) <==>
      (exists a :: a in actors && ReplicaOnNode(id, model)(a)) || model == actor.className
    {
      assert actor in actors + [actor];
    }
  }

  method ReadClusterOccupancy(rayNodes: seq<RayNode>, actors: seq<Actor>, scheduled: set<string>)
    returns (occupancy: Dict<string, Node>, waiting: seq<WaitingReplica>)
    ensures AllBalanced(AliveNodes(rayNodes), actors, scheduled, occupancy)
    ensures waiting == WaitingReplicas(actors)
  {
    hide AllBalanced;
    var totals := AliveNodes(rayNodes);
    occupancy := Dict(totals.keys, map id | id in totals.at :: Node(totals.at[id], Dict([], map[])));
    NothingCharged(totals, scheduled, occupancy);
    waiting := [];
    var i := 0;
    while i < |actors|
      invariant 0 <= i <= |actors|
      invariant AllBalanced(totals, actors[..i], scheduled, occupancy)
      invariant waiting == WaitingReplicas(actors[..i])
    {
      occupancy, waiting := ChargeActor(totals, actors[..i], actors[i], scheduled, occupancy, waiting);
      assert actors[..i + 1] == actors[..i] + [actors[i]];
      i := i + 1;
    }
    assert actors[..i] == actors;
  }

  lemma NothingCharged(totals: Dict<string, Resources>, scheduled: set<string>, occupancy: Dict<string, Node>)
    requires totals.Valid() && occupancy.keys == totals.keys
    requires occupancy.at == map id | id in totals.at :: Node(totals.at[id], Dict([], map[]))
    ensures AllBalanced(totals, [], scheduled, occupancy)
  {
  }

  /** The body of the loop over the actors. */
  method ChargeActor(
    ghost totals: Dict<string, Resources>, ghost before: seq<Actor>, actor: Actor, scheduled: set<string>,
    occupancy: Dict<string, Node>, waiting: seq<WaitingReplica>)
    returns (charged: Dict<string, Node>, nowWaiting: seq<WaitingReplica>)
    requires AllBalanced(totals, before, scheduled, occupancy)
    requires waiting == WaitingReplicas(before)
    ensures AllBalanced(totals, before + [actor], scheduled, charged)
    ensures nowWaiting == WaitingReplicas(before + [actor])
  {
    assert (before + [actor])[..|before|] == before;
    charged, nowWaiting := occupancy, waiting;
    if IsServeReplicaWaitingForRoom(actor) {
      nowWaiting := waiting + [WaitingOf(actor)];
    } else if actor.nodeId.Some? && actor.nodeId.value in occupancy.at {
      var id := actor.nodeId.value;
      var node := Charge(occupancy.at[id], actor, scheduled);
      BalancedCharged(id, totals.at[id], before, actor, scheduled, occupancy.at[id], node);
      charged := occupancy.Put(id, node);
    }
    forall id | id in totals.at && !PlacedOn(actor, id)
      ensures Balanced(id, totals.at[id], before + [actor], scheduled, charged.at[id])
    {
      BalancedElsewhere(id, totals.at[id], before, actor, scheduled, occupancy.at[id]);
    }
  }

  /** Charges one placed actor to its node. */
  method Charge(node: Node, actor: Actor, scheduled: set<string>) returns (charged: Node)
    requires node.held.Valid()
    ensures IsCharged(node, actor, scheduled, charged)
  {
    var free := SubtractResources(node.free, Reserved(actor));
    charged := node.(free := free);
    if actor.className in scheduled {
      var heldBefore := if actor.className in node.held.at then node.held.at[actor.className] else map[];
      var heldAfter := AddResources(heldBefore, Reserved(actor));
      charged := charged.(held := node.held.Put(actor.className, heldAfter));
    }
  }

  /** Conservation: on a balanced node every resource's total is what is free,
      plus what the listed models hold, plus what all other placed actors
      reserve; actors waiting for room are charged nowhere. */
  lemma {:induction false} Conservation(
    id: string, total: Resources, actors: seq<Actor>, scheduled: set<string>, node: Node, name: string)
    requires Balanced(id, total, actors, scheduled, node)
    ensures Amount(total, name) ==
      Amount(node.free, name) + HeldBy(node, scheduled, name) + ReservedBy(actors, OthersOnNode(id, scheduled), name)
  {
    SplitByModel(id, actors, scheduled, name);
    SumPointwise(scheduled, (model: string) => Held(node, model, name),
      (model: string) => ReservedBy(actors, ReplicaOnNode(id, model), name));
  }

  /** Reservations are never negative, so no model holds a negative amount. */
  lemma NoDebt(id: string, total: Resources, actors: seq<Actor>, scheduled: set<string>, node: Node)
    requires Balanced(id, total, actors, scheduled, node)
    requires forall a, name :: a in actors ==> Amount(Reserved(a), name) >= 0.0
    ensures HoldsNoDebt(node)
  {
    forall model, name | model in node.held.at && name in node.held.at[model]
      ensures node.held.at[model][name] >= 0.0
    {
      assert Held(node, model, name) == ReservedBy(actors, ReplicaOnNode(id, model), name);
      ReservedNonNegative(actors, ReplicaOnNode(id, model), name);
    }
  }

  lemma {:induction false} ReservedNonNegative(actors: seq<Actor>, p: Actor -> bool, name: string)
    requires forall a :: a in actors ==> Amount(Reserved(a), name) >= 0.0
    ensures ReservedBy(actors, p, name) >= 0.0
  {
    if actors != [] {
      ReservedNonNegative(actors[..|actors| - 1], p, name);
    }
  }

  function OthersOnNode(nodeId: string, scheduled: set<string>): Actor -> bool {
    (actor: Actor) => PlacedOn(actor, nodeId) && actor.className !in scheduled
  }

  lemma {:induction false} SplitByModel(id: string, actors: seq<Actor>, scheduled: set<string>, name: string)
    ensures ReservedBy(actors, OnNode(id), name) ==
      Sum(scheduled, (model: string) => ReservedBy(actors, ReplicaOnNode(id, model), name))
      + ReservedBy(actors, OthersOnNode(id, scheduled), name)
  {
    var share := (model: string) => ReservedBy(actors, ReplicaOnNode(id, model), name);
    if actors == [] {
      SumOfNothing(scheduled, share);
    } else {
      var rest, last := actors[..|actors| - 1], actors[|actors| - 1];
      var shareOfRest := (model: string) => ReservedBy(rest, ReplicaOnNode(id, model), name);
      SplitByModel(id, rest, scheduled, name);
      if PlacedOn(last, id) && last.className in scheduled {
        SumTake(scheduled, last.className, share);
        SumTake(scheduled, last.className, shareOfRest);
        SumPointwise(scheduled - {last.className}, share, shareOfRest);
      } else {
        SumPointwise(scheduled, share, shareOfRest);
      }
    }
  }

  lemma {:induction false} SumOfNothing(s: set<string>, amount: string -> real)
    requires forall x :: amount(x) == 0.0
    ensures Sum(s, amount) == 0.0
    decreases |s|
  {
    if s != {} {
      var x :| x in s;
      SumTake(s, x, amount);
      SumOfNothing(s - {x}, amount);
    }
  }

  /******* The same, told by Ray's lists alone *******/

  ghost predicate IsAlive(nodes: seq<RayNode>, id: string, i: nat) {
    i < |nodes| && nodes[i].alive && nodes[i].nodeId == id
  }

  ghost predicate FirstAlive(nodes: seq<RayNode>, id: string, i: nat) {
    IsAlive(nodes, id, i) && forall j: nat :: j < i ==> !IsAlive(nodes, id, j)
  }

  ghost predicate LastAlive(nodes: seq<RayNode>, id: string, i: nat) {
    IsAlive(nodes, id, i) && forall j: nat :: i < j ==> !IsAlive(nodes, id, j)
  }

  /** An alive node counts with what Ray lists for it last. */
  lemma {:induction false} AliveNodesMeaning(nodes: seq<RayNode>, id: string)
    ensures id in AliveNodes(nodes).at <==> exists i: nat :: IsAlive(nodes, id, i)
    ensures id in AliveNodes(nodes).at ==>
      exists i: nat :: LastAlive(nodes, id, i) && AliveNodes(nodes).at[id] == nodes[i].resources
  {
    if nodes != [] {
      var last := |nodes| - 1;
      var rest := nodes[..last];
      AliveNodesMeaning(rest, id);
      forall i: nat | i != last ensures IsAlive(nodes, id, i) <==> IsAlive(rest, id, i) {
      }
      if IsAlive(nodes, id, last) {
        assert LastAlive(nodes, id, last);
      } else if id in AliveNodes(rest).at {
        var i: nat :| LastAlive(rest, id, i) && AliveNodes(rest).at[id] == rest[i].resources;
        assert LastAlive(nodes, id, i);
      }
    }
  }

  /** The nodes come in the order in which Ray first lists them. */
  lemma {:induction false} AliveNodesInOrder(nodes: seq<RayNode>, k: nat, m: nat)
    requires k < m < |AliveNodes(nodes).keys|
    ensures exists i: nat, j: nat ::
      i < j && FirstAlive(nodes, AliveNodes(nodes).keys[k], i) && FirstAlive(nodes, AliveNodes(nodes).keys[m], j)
  {
    var last := |nodes| - 1;
    var rest := nodes[..last];
    var before, after := AliveNodes(rest), AliveNodes(nodes);
    assert before.keys <= after.keys;
    assert forall id, i: nat :: FirstAlive(rest, id, i) ==> FirstAlive(nodes, id, i) by {
      forall id, i: nat | FirstAlive(rest, id, i) ensures FirstAlive(nodes, id, i) {
        assert forall j: nat :: j < i ==> IsAlive(nodes, id, j) == IsAlive(rest, id, j);
      }
    }
    if m < |before.keys| {
      AliveNodesInOrder(rest, k, m);
      var i: nat, j: nat :| i < j && FirstAlive(rest, before.keys[k], i) && FirstAlive(rest, before.keys[m], j);
    } else {
      var first, id := after.keys[k], after.keys[m];
      assert first == before.keys[k] && first in before.keys && first in before.at;
      assert id !in before.at && id == nodes[last].nodeId;
      AliveNodesMeaning(rest, id);
      var i := FirstOf(rest, first);
      assert forall j: nat :: j < last ==> IsAlive(nodes, id, j) == IsAlive(rest, id, j);
      assert FirstAlive(nodes, id, last);
    }
  }

  lemma {:induction false} FirstOf(nodes: seq<RayNode>, id: string) returns (i: nat)
    requires id in AliveNodes(nodes).at
    ensures FirstAlive(nodes, id, i)
  {
    AliveNodesMeaning(nodes, id);
    var found: nat :| IsAlive(nodes, id, found);
    i := 0;
    while !IsAlive(nodes, id, i)
      invariant i <= found && forall j: nat :: j < i ==> !IsAlive(nodes, id, j)
      decreases found - i
    {
      i := i + 1;
    }
  }

  /** What an actor asks Ray for. */
  ghost function Asked(actor: Actor, name: string): real {
    if actor.requiredResources.Some? && name in actor.requiredResources.value then actor.requiredResources.value[name]
    else 0.0
  }

  /** The sum over the actors on the node, of one class if it is given. */
  ghost function AskedOn(actors: seq<Actor>, id: string, className: Option<string>, name: string): real {
    if actors == [] then 0.0
    else
      var last := actors[|actors| - 1];
      AskedOn(actors[..|actors| - 1], id, className, name)
      + if last.nodeId == Some(id) && (className.None? || last.className == className.value) then Asked(last, name)
        else 0.0
  }

  lemma {:induction false} AskedIsReserved(actors: seq<Actor>, id: string, className: Option<string>, name: string)
    ensures AskedOn(actors, id, className, name) ==
      ReservedBy(actors, if className.None? then OnNode(id) else ReplicaOnNode(id, className.value), name)
  {
    if actors != [] {
      AskedIsReserved(actors[..|actors| - 1], id, className, name);
    }
  }

  /** On a balanced node what is free is the total less what the actors there
      ask for, and a listed class holds what its own actors there ask for. */
  lemma BooksMeaning(
    id: string, total: Resources, actors: seq<Actor>, scheduled: set<string>, node: Node, model: string, name: string)
    requires Balanced(id, total, actors, scheduled, node)
    ensures (if name in node.free then node.free[name] else 0.0) ==
      (if name in total then total[name] else 0.0) - AskedOn(actors, id, None, name)
    ensures model in node.held.at <==>
      model in scheduled && exists actor :: actor in actors && actor.nodeId == Some(id) && actor.className == model
    ensures model in node.held.at ==>
      (if name in node.held.at[model] then node.held.at[model][name] else 0.0) == AskedOn(actors, id, Some(model), name)
  {
    AskedIsReserved(actors, id, None, name);
    AskedIsReserved(actors, id, Some(model), name);
    assert Amount(node.free, name) == Amount(total, name) - ReservedBy(actors, OnNode(id), name);
    if model in node.held.at {
      assert Held(node, model, name) == ReservedBy(actors, ReplicaOnNode(id, model), name);
    }
    if actor :| actor in actors && actor.nodeId == Some(id) && actor.className == model {
      assert ReplicaOnNode(id, model)(actor);
    }
  }

  /** Not yet created, on no node, and a replica of Serve. */
  ghost function AwaitsRoom(): Actor -> bool {
    (actor: Actor) =>
      actor.state == PendingCreation && actor.nodeId == None &&
      |actor.className| >= 13 && actor.className[..13] == "ServeReplica:"
  }

  /** Exactly these are waiting, each as often as it is listed and in that
      order, for all that they ask for. */
  lemma WaitingMeaning(actors: seq<Actor>) returns (picks: seq<nat>)
    ensures ArePicks(actors, AwaitsRoom(), picks) && |picks| == |WaitingReplicas(actors)|
    ensures forall k :: 0 <= k < |picks| ==>
      picks[k] < |actors| &&
      var replica, actor := WaitingReplicas(actors)[k], actors[picks[k]];
      && replica.actorId == actor.actorId && replica.className == actor.className
      && forall name :: (if name in replica.required then replica.required[name] else 0.0) == Asked(actor, name)
  {
    picks := FilterPicks(actors, AwaitsRoom());
    WaitingAreFiltered(actors);
  }

  lemma {:induction false} WaitingAreFiltered(actors: seq<Actor>)
    ensures var waiting := Filter(actors, AwaitsRoom());
      |WaitingReplicas(actors)| == |waiting| &&
      forall k :: 0 <= k < |waiting| ==> WaitingReplicas(actors)[k] == WaitingOf(waiting[k])
  {
    if actors != [] {
      var rest, last := actors[..|actors| - 1], actors[|actors| - 1];
      WaitingAreFiltered(rest);
      assert actors == rest + [last];
      FilterLast(rest, last, AwaitsRoom());
      PrefixIs(last);
    }
  }

  lemma PrefixIs(actor: Actor)
    ensures IsServeReplicaWaitingForRoom(actor) <==> AwaitsRoom()(actor)
  {
    if |actor.className| >= 13 {
      assert SERVE_REPLICA_CLASS_PREFIX <= actor.className <==> actor.className[..13] == "ServeReplica:";
    }
  }
}
