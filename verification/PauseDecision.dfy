/** cortexgrid/_model_scheduler.py, what a pause decision guarantees: it is
    safe, it makes room, and it gives up only when nothing could. */
module PauseDecision {
  import opened Common
  import opened Graph
  import opened Sorting
  import opened Sums
  import opened PauseSearch

  /** What the search answers for one waiting replica, out of `running`. */
  ghost predicate IsChoice(
    models: Models, required: Edges<string>, nodes: seq<Node>, running: set<string>,
    replica: WaitingReplica, chosen: set<string>)
  {
    exists groups ::
      AreGroups(models, required, running, replica.className, groups) &&
      IsFewest(models, replica.required, nodes, groups, chosen)
  }

  ghost function UnionOf(choices: seq<set<string>>): set<string> {
    set i, name | 0 <= i < |choices| && name in choices[i] :: name
  }

  /** One choice per waiting replica, each out of what the earlier ones left. */
  ghost predicate IsDecision(
    models: Models, required: Edges<string>, nodes: seq<Node>, running: set<string>,
    waiting: seq<WaitingReplica>, choices: seq<set<string>>)
  {
    && |choices| == |waiting|
    && forall i :: 0 <= i < |choices| ==>
         IsChoice(models, required, nodes, running - UnionOf(choices[..i]), waiting[i], choices[i])
  }

  /** A set the scheduler may pause for the replica: idle, sparing what the
      replica needs, and leaving no running dependent behind. */
  ghost predicate MayPause(
    models: Models, required: Edges<string>, running: set<string>, className: string, names: set<string>)
  {
    && names <= running
    && Idle(models, names)
    && Spares(required, className, names)
    && DependentsClosed(required, running, names)
  }

  /******* One replica *******/

  lemma GroupsMayBePaused(
    models: Models, required: Edges<string>, running: set<string>, className: string, groups: Edges<string>,
    order: seq<string>)
    requires AreGroups(models, required, running, className, groups)
    ensures MayPause(models, required, running, className, GroupsOf(groups, order))
  {
    var names := GroupsOf(groups, order);
    forall member | member in names
      ensures member in running && Idle(models, {member}) && Spares(required, className, {member})
      ensures Group(required, running, member) <= names
    {
      var name :| name in order && member in Targets(groups, name);
      assert groups[name] == Group(required, running, name);
      GroupsNest(required, running, name, member);
    }
    forall name, dependent | name in names && dependent in running && Reachable(required, dependent, name)
      ensures dependent in names
    {
      assert dependent in Group(required, running, name);
    }
  }

  lemma CandidateShape(
    models: Models, required: Edges<string>, nodes: seq<Node>, running: set<string>, replica: WaitingReplica,
    chosen: set<string>)
    returns (groups: Edges<string>, i: nat, order: seq<string>, count: nat)
    requires IsChoice(models, required, nodes, running, replica, chosen)
    requires chosen != {}
    ensures i < |nodes| && order == LeastRecentlyUsedFirst(models, nodes[i], groups)
    ensures AreGroups(models, required, running, replica.className, groups)
    ensures ShortestSufficient(replica.required, nodes[i], groups, order, count)
    ensures chosen == GroupsOf(groups, order[..count])
  {
    groups :| AreGroups(models, required, running, replica.className, groups) &&
      IsFewest(models, replica.required, nodes, groups, chosen);
    var candidates, best :|
      AreCandidates(models, replica.required, nodes, groups, candidates) && IsFewestOf(candidates, best) &&
      chosen == if best.Some? then best.value else {};
    i :| 0 <= i < |candidates| && candidates[i] == best;
    order := LeastRecentlyUsedFirst(models, nodes[i], groups);
    assert IsShortestSufficient(replica.required, nodes[i], groups, order, chosen);
    count :| ShortestSufficient(replica.required, nodes[i], groups, order, count) &&
      chosen == GroupsOf(groups, order[..count]);
  }

  /** Safety: only idle running models, never one the replica itself needs,
      and every running model that requires a chosen one is chosen too. */
  lemma ChoiceIsSafe(
    models: Models, required: Edges<string>, nodes: seq<Node>, running: set<string>, replica: WaitingReplica,
    chosen: set<string>)
    requires IsChoice(models, required, nodes, running, replica, chosen)
    ensures MayPause(models, required, running, replica.className, chosen)
  {
    if chosen != {} {
      var groups, i, order, count := CandidateShape(models, required, nodes, running, replica, chosen);
      GroupsMayBePaused(models, required, running, replica.className, groups, order[..count]);
    }
  }

  /** Sufficiency: pausing the chosen models leaves room on some node. */
  lemma ChoiceFreesRoom(
    models: Models, required: Edges<string>, nodes: seq<Node>, running: set<string>, replica: WaitingReplica,
    chosen: set<string>)
    requires IsChoice(models, required, nodes, running, replica, chosen)
    requires chosen != {}
    ensures !SomeNodeHasRoom(replica.required, nodes)
    ensures exists i :: 0 <= i < |nodes| && Frees(replica.required, nodes[i], chosen)
  {
    var groups, i, order, count := CandidateShape(models, required, nodes, running, replica, chosen);
  }

  /** A set that may be paused and frees enough on a node lies within the
      groups of that node's pausable models, so the whole order frees enough. */
  lemma WholeOrderFrees(
    models: Models, required: Edges<string>, running: set<string>, replica: WaitingReplica,
    groups: Edges<string>, node: Node, order: seq<string>, names: set<string>)
    requires HoldsNoDebt(node)
    requires AreGroups(models, required, running, replica.className, groups)
    requires forall name :: name in order <==> name in node.held.at && name in groups
    requires MayPause(models, required, running, replica.className, names)
    requires Frees(replica.required, node, names) && !HasRoomFor(replica.required, node.free)
    ensures |order| >= 1 && Frees(replica.required, node, GroupsOf(groups, order[..|order|]))
  {
    assert order[..|order|] == order;
    forall name | name in names * node.held.at.Keys
      ensures name in order && name in GroupsOf(groups, order)
    {
      WithinMayPause(models, required, running, replica.className, names, name);
      assert name in Targets(groups, name);
    }
    FreesMonotone(replica.required, node, names, GroupsOf(groups, order));
    if |order| == 0 {
      assert names !! node.held.at.Keys;
      FreesNothing(replica.required, node, names);
    }
  }

  lemma WithinMayPause(
    models: Models, required: Edges<string>, running: set<string>, className: string, names: set<string>, name: string)
    requires MayPause(models, required, running, className, names) && name in names
    ensures Pausable(models, required, running, className, name)
    ensures Group(required, running, name) <= names
  {
  }

  lemma NoCandidateIfNothingChosen(
    models: Models, required: Edges<string>, nodes: seq<Node>, running: set<string>, replica: WaitingReplica)
    returns (groups: Edges<string>)
    requires IsChoice(models, required, nodes, running, replica, {})
    requires !SomeNodeHasRoom(replica.required, nodes)
    ensures AreGroups(models, required, running, replica.className, groups)
    ensures forall i :: 0 <= i < |nodes| ==> Candidate(models, replica.required, nodes[i], groups).None?
  {
    groups :| AreGroups(models, required, running, replica.className, groups) &&
      IsFewest(models, replica.required, nodes, groups, {});
    var candidates, best :|
      AreCandidates(models, replica.required, nodes, groups, candidates) && IsFewestOf(candidates, best) &&
      {} == if best.Some? then best.value else {};
    if best.Some? {
      var i :| 0 <= i < |candidates| && candidates[i] == best;
      CandidateNotEmpty(models, required, running, replica, groups, nodes[i]);
    }
  }

  lemma CandidateNotEmpty(
    models: Models, required: Edges<string>, running: set<string>, replica: WaitingReplica, groups: Edges<string>,
    node: Node)
    requires AreGroups(models, required, running, replica.className, groups)
    requires Candidate(models, replica.required, node, groups).Some?
    ensures Candidate(models, replica.required, node, groups).value != {}
  {
    var order := LeastRecentlyUsedFirst(models, node, groups);
    var names := Candidate(models, replica.required, node, groups).value;
    var count: nat :| ShortestSufficient(replica.required, node, groups, order, count) &&
      names == GroupsOf(groups, order[..count]);
    assert order[0] in order[..count];
    LeastRecentlyUsedListed(models, node, groups, order[0]);
    assert order[0] in Targets(groups, order[0]);
    assert order[0] in GroupsOf(groups, order[..count]);
  }

  lemma LeastRecentlyUsedListed(models: Models, node: Node, groups: Edges<string>, name: string)
    requires name in LeastRecentlyUsedFirst(models, node, groups)
    ensures name in groups
  {
    var listed := Filter(node.held.keys, (name: string) => name in groups);
    assert name in multiset(SortBy(listed, LastUsed(models)));
    assert name in listed;
  }

  lemma {:induction false} SomePrefixIsShortest(
    required: Resources, node: Node, groups: Edges<string>, order: seq<string>, count: nat)
    requires 1 <= count <= |order| && Frees(required, node, GroupsOf(groups, order[..count]))
    ensures exists names :: IsShortestSufficient(required, node, groups, order, names)
    decreases count
  {
    if exists fewer :: 1 <= fewer < count && Frees(required, node, GroupsOf(groups, order[..fewer])) {
      var fewer: nat :| 1 <= fewer < count && Frees(required, node, GroupsOf(groups, order[..fewer]));
      SomePrefixIsShortest(required, node, groups, order, fewer);
    } else {
      assert ShortestSufficient(required, node, groups, order, count);
      assert IsShortestSufficient(required, node, groups, order, GroupsOf(groups, order[..count]));
    }
  }

  /** Completeness: while no node has room, something is chosen exactly when
      some set that may be paused would make room on some node. */
  lemma ChoosesIffPossible(
    models: Models, required: Edges<string>, nodes: seq<Node>, running: set<string>, replica: WaitingReplica,
    chosen: set<string>)
    requires IsChoice(models, required, nodes, running, replica, chosen)
    requires !SomeNodeHasRoom(replica.required, nodes)
    requires forall i :: 0 <= i < |nodes| ==> nodes[i].held.Valid() && HoldsNoDebt(nodes[i])
    ensures chosen != {} <==>
            exists i, names :: 0 <= i < |nodes| && Frees(replica.required, nodes[i], names) &&
              MayPause(models, required, running, replica.className, names)
  {
    if chosen != {} {
      ChoiceIsSafe(models, required, nodes, running, replica, chosen);
      ChoiceFreesRoom(models, required, nodes, running, replica, chosen);
    } else {
      var groups := NoCandidateIfNothingChosen(models, required, nodes, running, replica);
      forall i, names | 0 <= i < |nodes| && Frees(replica.required, nodes[i], names)
        ensures !MayPause(models, required, running, replica.className, names)
      {
        if MayPause(models, required, running, replica.className, names) {
          LeastRecentlyUsedMembers(models, nodes[i], groups);
          var order := LeastRecentlyUsedFirst(models, nodes[i], groups);
          WholeOrderFrees(models, required, running, replica, groups, nodes[i], order, names);
          SomePrefixIsShortest(replica.required, nodes[i], groups, order, |order|);
        }
      }
    }
  }

  /******* All waiting replicas *******/

  lemma EachChoiceIsSafe(
    models: Models, required: Edges<string>, nodes: seq<Node>, running: set<string>,
    waiting: seq<WaitingReplica>, choices: seq<set<string>>, i: nat)
    requires IsDecision(models, required, nodes, running, waiting, choices)
    requires i < |choices|
    ensures MayPause(models, required, running - UnionOf(choices[..i]), waiting[i].className, choices[i])
  {
    ChoiceIsSafe(models, required, nodes, running - UnionOf(choices[..i]), waiting[i], choices[i]);
  }

  /** The whole decision: no model is chosen for two replicas, none has
      requests, and no replica pauses what it needs itself. */
  lemma DecisionIsSafe(
    models: Models, required: Edges<string>, nodes: seq<Node>, running: set<string>,
    waiting: seq<WaitingReplica>, choices: seq<set<string>>)
    requires IsDecision(models, required, nodes, running, waiting, choices)
    ensures UnionOf(choices) <= running && Idle(models, UnionOf(choices))
    ensures forall i, j :: 0 <= i < j < |choices| ==> choices[i] !! choices[j]
    ensures forall i :: 0 <= i < |choices| ==> Spares(required, waiting[i].className, choices[i])
  {
    forall i | 0 <= i < |choices|
      ensures choices[i] <= running && Idle(models, choices[i]) && choices[i] !! UnionOf(choices[..i])
      ensures Spares(required, waiting[i].className, choices[i])
    {
      EachChoiceIsSafe(models, required, nodes, running, waiting, choices, i);
    }
    forall i, j | 0 <= i < j < |choices| ensures choices[i] !! choices[j] {
      assert choices[..j][i] == choices[i];
      assert choices[i] <= UnionOf(choices[..j]);
    }
  }

  /** A model is paused only together with everything running that requires it. */
  lemma DecisionLeavesNoDependent(
    models: Models, required: Edges<string>, nodes: seq<Node>, running: set<string>,
    waiting: seq<WaitingReplica>, choices: seq<set<string>>)
    requires IsDecision(models, required, nodes, running, waiting, choices)
    ensures DependentsClosed(required, running, UnionOf(choices))
  {
    hide IsDecision, Idle, Spares;
    forall name, dependent |
        name in UnionOf(choices) && dependent in running && Reachable(required, dependent, name)
      ensures dependent in UnionOf(choices)
    {
      var i :| 0 <= i < |choices| && name in choices[i];
      EachChoiceIsSafe(models, required, nodes, running, waiting, choices, i);
      UnionOfPrefix(choices, i);
      assert dependent in UnionOf(choices[..i]) || dependent in choices[i];
    }
  }

  lemma UnionOfPrefix(choices: seq<set<string>>, i: nat)
    requires i < |choices|
    ensures UnionOf(choices[..i]) + choices[i] <= UnionOf(choices)
  {
    forall name | name in UnionOf(choices[..i]) ensures name in UnionOf(choices) {
      var j :| 0 <= j < |choices[..i]| && name in choices[..i][j];
      assert name in choices[j];
    }
  }

  /** Completeness per replica: whatever the earlier replicas left over, a
      replica gets nothing only when no set that may be paused would help it. */
  lemma DecisionIsComplete(
    models: Models, required: Edges<string>, nodes: seq<Node>, running: set<string>,
    waiting: seq<WaitingReplica>, choices: seq<set<string>>, i: nat)
    requires IsDecision(models, required, nodes, running, waiting, choices)
    requires i < |choices|
    requires forall n :: 0 <= n < |nodes| ==> nodes[n].held.Valid() && HoldsNoDebt(nodes[n])
    ensures SomeNodeHasRoom(waiting[i].required, nodes) ==> choices[i] == {}
    ensures !SomeNodeHasRoom(waiting[i].required, nodes) ==>
      (choices[i] == {} <==>
        forall n, names |
          && 0 <= n < |nodes|
          && MayPause(models, required, running - UnionOf(choices[..i]), waiting[i].className, names) ::
          !Frees(waiting[i].required, nodes[n], names))
  {
    hide MayPause, Frees;
    if !SomeNodeHasRoom(waiting[i].required, nodes) {
      ChoosesIffPossible(models, required, nodes, running - UnionOf(choices[..i]), waiting[i], choices[i]);
    }
  }

  /** The chosen prefix need not be the smallest set that makes room: with `a`
      used longer ago than `b`, the choice is both although `b` alone may be
      paused and holds enough. */
  lemma SmallerSetMaySuffice()
    ensures
      var models: Models := map[
        "a" := ScheduledModel("app-a", [], false, 1.0, 9.0), "b" := ScheduledModel("app-b", [], false, 2.0, 9.0)];
      var node := Node(map[], Dict(["a", "b"], map["a" := map["GPU" := 1.0], "b" := map["GPU" := 2.0]]));
      var replica := WaitingReplica("actor", "c", map["GPU" := 2.0]);
      && IsChoice(models, map[], [node], {"a", "b"}, replica, {"a", "b"})
      && MayPause(models, map[], {"a", "b"}, "c", {"b"})
      && Frees(replica.required, node, {"b"})
  {
    var models: Models := map[
      "a" := ScheduledModel("app-a", [], false, 1.0, 9.0), "b" := ScheduledModel("app-b", [], false, 2.0, 9.0)];
    var node := Node(map[], Dict(["a", "b"], map["a" := map["GPU" := 1.0], "b" := map["GPU" := 2.0]]));
    var groups: Edges<string> := map["a" := {"a"}, "b" := {"b"}];
    var needed := map["GPU" := 2.0];
    var replica := WaitingReplica("actor", "c", needed);
    hide AreGroups, IsFewest, MayPause, Frees, HasRoomFor, LeastRecentlyUsedFirst, IsShortestSufficient;
    PrefixOfTwo(node, groups, needed);
    NothingRequired(models, groups);
    OrderOfTwo(models, node, groups);
    NoRoomYet(node, needed);
    assert ToSet(["a", "b"]) == {"a", "b"};
    OnlyCandidate(models, needed, node, groups, ["a", "b"]);
  }

  lemma NoRoomYet(node: Node, needed: Resources)
    requires node.free == map[] && needed == map["GPU" := 2.0]
    ensures !HasRoomFor(needed, node.free)
  {
    assert "GPU" in needed;
  }

  /** On a cluster of one node its candidate is the choice. */
  lemma OnlyCandidate(models: Models, needed: Resources, node: Node, groups: Edges<string>, names: seq<string>)
    requires IsShortestSufficient(needed, node, groups, LeastRecentlyUsedFirst(models, node, groups), ToSet(names))
    requires Distinct(names) && !HasRoomFor(needed, node.free)
    ensures IsFewest(models, needed, [node], groups, ToSet(names))
  {
    hide IsShortestSufficient, Candidate, HasRoomFor, LeastRecentlyUsedFirst;
    AnswerIsCandidate(models, needed, node, groups, Some(names));
    var candidates := [Candidate(models, needed, node, groups)];
    assert AreCandidates(models, needed, [node], groups, candidates);
    assert IsFewestOf(candidates, candidates[0]);
  }

  lemma PrefixOfTwo(node: Node, groups: Edges<string>, needed: Resources)
    requires node == Node(map[], Dict(["a", "b"], map["a" := map["GPU" := 1.0], "b" := map["GPU" := 2.0]]))
    requires groups == map["a" := {"a"}, "b" := {"b"}] && needed == map["GPU" := 2.0]
    ensures IsShortestSufficient(needed, node, groups, ["a", "b"], {"a", "b"})
    ensures Frees(needed, node, {"b"})
  {
    hide GroupsOf, HeldBy;
    var order := ["a", "b"];
    HeldOfTwo(node);
    GroupsOfTwo(groups);
    assert order[..1] == ["a"] && order[..2] == order && "GPU" in needed;
    assert ShortestSufficient(needed, node, groups, order, 2);
  }

  lemma HeldOfTwo(node: Node)
    requires node.held.at == map["a" := map["GPU" := 1.0], "b" := map["GPU" := 2.0]]
    ensures HeldBy(node, {"a"}, "GPU") == 1.0 && HeldBy(node, {"b"}, "GPU") == 2.0
    ensures HeldBy(node, {"a", "b"}, "GPU") == 3.0
  {
    var held := (model: string) => Held(node, model, "GPU");
    SumAdd({}, "a", held);
    SumAdd({}, "b", held);
    SumAdd({"a"}, "b", held);
    assert {} + {"a"} == {"a"} && {} + {"b"} == {"b"} && {"a"} + {"b"} == {"a", "b"};
  }

  lemma GroupsOfTwo(groups: Edges<string>)
    requires groups == map["a" := {"a"}, "b" := {"b"}]
    ensures GroupsOf(groups, ["a"]) == {"a"} && GroupsOf(groups, ["a", "b"]) == {"a", "b"}
  {
    var order := ["a", "b"];
    GroupsOfNext(groups, order, 0);
    GroupsOfNext(groups, order, 1);
    assert order[..0] == [] && order[..1] == ["a"] && order[..2] == order;
    assert GroupsOf(groups, []) == {};
  }

  lemma NothingRequired(models: Models, groups: Edges<string>)
    requires models.Keys == {"a", "b"} && forall name :: name in models ==> !models[name].hasRequests
    requires groups == map["a" := {"a"}, "b" := {"b"}]
    ensures AreGroups(models, map[], {"a", "b"}, "c", groups)
    ensures MayPause(models, map[], {"a", "b"}, "c", {"b"})
  {
    var none: Edges<string> := map[];
    forall p: seq<string> ensures !IsPath(none, p) {
      assert IsPath(none, p) ==> p[1] in Targets(none, p[0]);
    }
    forall name ensures Group(none, {"a", "b"}, name) == {name} {
    }
    assert "b" in models && "a" in models;
  }

  lemma OrderOfTwo(models: Models, node: Node, groups: Edges<string>)
    requires models.Keys == {"a", "b"} && models["a"].lastRequestAt < models["b"].lastRequestAt
    requires node.held.keys == ["a", "b"] && groups.Keys == {"a", "b"}
    ensures LeastRecentlyUsedFirst(models, node, groups) == ["a", "b"]
  {
    var known := (name: string) => name in groups;
    var le := LastUsed(models);
    assert ["a", "b"][1..] == ["b"] && ["b"][1..] == [];
    assert Filter(["b"], known) == ["b"];
    assert Filter(["a", "b"], known) == ["a", "b"];
    assert SortBy(["b"], le) == ["b"];
    assert SortBy(["a", "b"], le) == Insert("a", ["b"], le) == ["a", "b"];
  }

  /** What "least recently used first" means: exactly the node's pausable
      models, each once, by the time of their last request. */
  lemma LeastRecentlyUsedMeaning(models: Models, node: Node, groups: Edges<string>)
    requires node.held.Valid() && groups.Keys <= models.Keys
    ensures var order := LeastRecentlyUsedFirst(models, node, groups);
      && Distinct(order)
      && (forall name :: name in order <==> name in node.held.at && name in groups)
      && forall i, j :: 0 <= i < j < |order| ==>
           order[i] in models && order[j] in models &&
           models[order[i]].lastRequestAt <= models[order[j]].lastRequestAt
  {
    hide SortBy, Filter;
    var listed := Filter(node.held.keys, (name: string) => name in groups);
    var order := LeastRecentlyUsedFirst(models, node, groups);
    LeastRecentlyUsedMembers(models, node, groups);
    LastUsedPreorder(models);
    SortByAscending(listed, LastUsed(models));
    FilterKeepsDistinct(node.held.keys, (name: string) => name in groups);
    SortByKeepsDistinct(listed, LastUsed(models));
    forall i, j | 0 <= i < j < |order|
      ensures order[i] in models && order[j] in models &&
        models[order[i]].lastRequestAt <= models[order[j]].lastRequestAt
    {
      assert order[i] in order && order[j] in order;
      assert LastUsed(models)(order[i], order[j]);
    }
  }

  /** Models last used at one time come in the node's own order. */
  lemma TiesInNodeOrder(models: Models, node: Node, groups: Edges<string>, i: nat, j: nat) returns (a: nat, b: nat)
    requires node.held.Valid() && groups.Keys <= models.Keys
    requires var order := LeastRecentlyUsedFirst(models, node, groups);
      i < j < |order| && order[i] in models && order[j] in models &&
      models[order[i]].lastRequestAt == models[order[j]].lastRequestAt
    ensures var order := LeastRecentlyUsedFirst(models, node, groups);
      a < b < |node.held.keys| && node.held.keys[a] == order[i] && node.held.keys[b] == order[j]
  {
    hide SortBy, Filter;
    var inGroups := (name: string) => name in groups;
    var listed := Filter(node.held.keys, inGroups);
    var order := LeastRecentlyUsedFirst(models, node, groups);
    var tied := Tied(LastUsed(models), order[i]);
    LastUsedPreorder(models);
    SortByStable(listed, LastUsed(models), order[i]);
    var k, m := FilterKeepsOrder(order, tied, i, j);
    var c, d := FilterComesInOrder(listed, tied, k, m);
    a, b := FilterComesInOrder(node.held.keys, inGroups, c, d);
  }

  lemma LastUsedPreorder(models: Models)
    ensures TotalPreorder(LastUsed(models))
  {
  }
}
