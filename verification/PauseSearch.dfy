/** cortexgrid/_model_scheduler.py, the search: which idle models to scale to
    zero so that a Serve replica waiting for room fits on some node. */
module PauseSearch {
  import opened Common
  import opened Graph
  import opened Sorting
  import opened Sums

  const RESOURCE_FLOAT_TOLERANCE: real := 0.000001

  type Resources = map<string, real>

  datatype ScheduledModel = ScheduledModel(
    appName: string,
    requiredApps: seq<string>,
    hasRequests: bool,
    lastRequestAt: real,
    lastReportAt: real)

  type Models = map<string, ScheduledModel>

  /** What one node has free and what each scheduled model holds on it. */
  datatype Node = Node(free: Resources, held: Dict<string, Resources>)

  datatype WaitingReplica = WaitingReplica(actorId: string, className: string, required: Resources)

  /******* Resource arithmetic *******/

  function Amount(resources: Resources, name: string): real {
    if name in resources then resources[name] else 0.0
  }

  method AddResources(target: Resources, amounts: Resources) returns (total: Resources)
    ensures forall name :: Amount(total, name) == Amount(target, name) + Amount(amounts, name)
  {
    total := target;
    var names := amounts.Keys;
    while names != {}
      invariant names <= amounts.Keys
      invariant forall name ::
        Amount(total, name) == Amount(target, name) + (if name in names then 0.0 else Amount(amounts, name))
      decreases |names|
    {
      var name :| name in names;
      total := total[name := Amount(total, name) + amounts[name]];
      names := names - {name};
    }
  }

  method SubtractResources(target: Resources, amounts: Resources) returns (rest: Resources)
    ensures forall name :: Amount(rest, name) == Amount(target, name) - Amount(amounts, name)
  {
    rest := target;
    var names := amounts.Keys;
    while names != {}
      invariant names <= amounts.Keys
      invariant forall name ::
        Amount(rest, name) == Amount(target, name) - (if name in names then 0.0 else Amount(amounts, name))
      decreases |names|
    {
      var name :| name in names;
      rest := rest[name := Amount(rest, name) - amounts[name]];
      names := names - {name};
    }
  }

  predicate HasRoomFor(required: Resources, available: Resources) {
    forall name :: name in required ==>
      Amount(available, name) + RESOURCE_FLOAT_TOLERANCE >= required[name]
  }

  /** What `model` holds of resource `name` on the node. */
  function Held(node: Node, model: string, name: string): real {
    if model in node.held.at then Amount(node.held.at[model], name) else 0.0
  }

  ghost function HeldBy(node: Node, paused: set<string>, name: string): real {
    Sum(paused, (model: string) => Held(node, model, name))
  }

  /** Stopping the models in `paused` leaves room on the node. */
  ghost predicate Frees(required: Resources, node: Node, paused: set<string>) {
    forall name :: name in required ==>
      Amount(node.free, name) + HeldBy(node, paused, name) + RESOURCE_FLOAT_TOLERANCE >= required[name]
  }

  ghost predicate HoldsNoDebt(node: Node) {
    forall model, name :: model in node.held.at && name in node.held.at[model] ==>
      node.held.at[model][name] >= 0.0
  }

  lemma FreesMonotone(required: Resources, node: Node, paused: set<string>, more: set<string>)
    requires HoldsNoDebt(node)
    requires paused * node.held.at.Keys <= more
    requires Frees(required, node, paused)
    ensures Frees(required, node, more)
  {
    forall name | name in required
      ensures HeldBy(node, paused, name) <= HeldBy(node, more, name)
    {
      var amount := (model: string) => Held(node, model, name);
      SumRestrict(paused, node.held.at.Keys, amount);
      SumMonotone(paused * node.held.at.Keys, more, amount);
    }
  }

  lemma FreesNothing(required: Resources, node: Node, paused: set<string>)
    requires paused !! node.held.at.Keys
    ensures Frees(required, node, paused) <==> HasRoomFor(required, node.free)
  {
    forall name ensures HeldBy(node, paused, name) == 0.0 {
      var amount := (model: string) => Held(node, model, name);
      SumRestrict(paused, node.held.at.Keys, amount);
      assert paused * node.held.at.Keys == {};
    }
  }

  /******* Who requires whom *******/

  /** The models' apps, each with the last model that reported under it. */
  function ModelOfApp(models: Dict<string, ScheduledModel>, count: nat): (names: map<string, string>)
    requires models.Valid() && count <= |models.keys|
  {
    if count == 0 then map[]
    else
      var name := models.keys[count - 1];
      assert name in models.keys;
      ModelOfApp(models, count - 1)[models.at[name].appName := name]
  }

  function ModelsRequiredDirectly(models: Dict<string, ScheduledModel>): Edges<string>
    requires models.Valid()
  {
    var modelOfApp := ModelOfApp(models, |models.keys|);
    map name | name in models.at ::
      set app | app in models.at[name].requiredApps && app in modelOfApp :: modelOfApp[app]
  }

  lemma {:induction false} ModelOfAppIsLast(models: Dict<string, ScheduledModel>, count: nat, app: string)
    requires models.Valid() && count <= |models.keys|
    ensures var names := ModelOfApp(models, count);
            if app in names then
              exists i :: 0 <= i < count && models.keys[i] == names[app] &&
                models.at[models.keys[i]].appName == app &&
                forall j :: i < j < count ==> models.at[models.keys[j]].appName != app
            else
              forall j :: 0 <= j < count ==> models.at[models.keys[j]].appName != app
  {
    if count > 0 {
      ModelOfAppIsLast(models, count - 1, app);
      if models.at[models.keys[count - 1]].appName == app {
        assert models.keys[count - 1] == ModelOfApp(models, count)[app];
      }
    }
  }

  /** Of the models that report under one app, the last one stands for it. */
  ghost predicate StandsForItsApp(models: Dict<string, ScheduledModel>, name: string)
    requires models.Valid()
  {
    name in models.at &&
    forall i, j :: 0 <= i < j < |models.keys| && models.keys[i] == name ==>
      models.at[models.keys[j]].appName != models.at[name].appName
  }

  /** A model requires exactly the models that stand for the apps it names. */
  lemma RequiredIffStandsFor(models: Dict<string, ScheduledModel>, name: string, other: string)
    requires models.Valid() && name in models.at
    ensures other in Targets(ModelsRequiredDirectly(models), name) <==>
            StandsForItsApp(models, other) && models.at[other].appName in models.at[name].requiredApps
  {
    var modelOfApp := ModelOfApp(models, |models.keys|);
    if other in Targets(ModelsRequiredDirectly(models), name) {
      var app :| app in models.at[name].requiredApps && app in modelOfApp && modelOfApp[app] == other;
      ModelOfAppIsLast(models, |models.keys|, app);
    }
    if StandsForItsApp(models, other) && models.at[other].appName in models.at[name].requiredApps {
      var app := models.at[other].appName;
      ModelOfAppIsLast(models, |models.keys|, app);
      assert other in models.keys;
      var i :| 0 <= i < |models.keys| && models.keys[i] == other;
      assert app in modelOfApp;
    }
  }

  /******* Groups that may be paused together *******/

  /** `name` with everything running that requires it, directly or not. */
  ghost function Group(required: Edges<string>, running: set<string>, name: string): set<string> {
    {name} + set dependent | dependent in running && Reachable(required, dependent, name)
  }

  ghost predicate Idle(models: Models, names: set<string>) {
    forall name :: name in names ==> name in models && !models[name].hasRequests
  }

  /** What pausing for `replica` must spare: its own class and all it requires. */
  ghost predicate Spares(required: Edges<string>, className: string, names: set<string>) {
    forall name :: name in names ==> name != className && !Reachable(required, className, name)
  }

  ghost predicate Pausable(
    models: Models, required: Edges<string>, running: set<string>, className: string, name: string)
  {
    && name in running
    && Idle(models, Group(required, running, name))
    && Spares(required, className, Group(required, running, name))
  }

  ghost predicate AreGroups(
    models: Models, required: Edges<string>, running: set<string>, className: string, groups: Edges<string>)
  {
    && (forall name :: name in groups <==> Pausable(models, required, running, className, name))
    && (forall name :: name in groups ==> groups[name] == Group(required, running, name))
  }

  /** `unpausable` is what the source computes: the waiting class and all it
      reaches. */
  method PauseGroups(
    models: Models, running: set<string>, className: string, unpausable: set<string>, required: Edges<string>)
    returns (groups: Edges<string>)
    requires running <= models.Keys
    requires forall name :: name in unpausable <==> name == className || Reachable(required, className, name)
    ensures AreGroups(models, required, running, className, groups)
  {
    var dependents := Reversed(required);
    groups := map[];
    var names := running;
    while names != {}
      invariant names <= running
      invariant forall name :: name in groups <==>
        name !in names && Pausable(models, required, running, className, name)
      invariant forall name :: name in groups ==> groups[name] == Group(required, running, name)
      decreases |names|
    {
      var name :| name in names;
      var group := GroupOf(running, name, required, dependents);
      SparesIffDisjoint(required, className, unpausable, group);
      if unpausable !! group && forall member :: member in group ==> !models[member].hasRequests {
        groups := groups[name := group];
      }
      names := names - {name};
    }
  }

  method GroupOf(running: set<string>, name: string, required: Edges<string>, dependents: Edges<string>)
    returns (group: set<string>)
    requires IsReversal(required, dependents)
    ensures group == Group(required, running, name)
  {
    var reached := Search(name, dependents);
    forall d ensures d in reached <==> Reachable(required, d, name) {
      ReversedReachability(required, dependents, d, name);
    }
    group := {name} + (reached * running);
  }

  lemma SparesIffDisjoint(required: Edges<string>, className: string, unpausable: set<string>, names: set<string>)
    requires forall name :: name in unpausable <==> name == className || Reachable(required, className, name)
    ensures unpausable !! names <==> Spares(required, className, names)
  {
  }

  /** Groups nest: a member's own group lies within the group. */
  lemma GroupsNest(required: Edges<string>, running: set<string>, name: string, member: string)
    requires member in Group(required, running, name)
    ensures Group(required, running, member) <= Group(required, running, name)
  {
    forall d | d in Group(required, running, member) ensures d in Group(required, running, name) {
      if d != member && member != name {
        ReachableTransitive(required, d, member, name);
      }
    }
  }

  ghost predicate DependentsClosed(required: Edges<string>, running: set<string>, names: set<string>) {
    forall name, dependent ::
      name in names && dependent in running && Reachable(required, dependent, name) ==> dependent in names
  }

  /******* One node: the least recently used models that free enough *******/

  function LastUsed(models: Models): (string, string) -> bool {
    (a: string, b: string) =>
      (if a in models then models[a].lastRequestAt else 0.0) <= (if b in models then models[b].lastRequestAt else 0.0)
  }

  /** The node's pausable models, least recently used first. */
  function LeastRecentlyUsedFirst(models: Models, node: Node, groups: Edges<string>): seq<string> {
    SortBy(Filter(node.held.keys, (name: string) => name in groups), LastUsed(models))
  }

  ghost function GroupsOf(groups: Edges<string>, names: seq<string>): set<string> {
    set name, member | name in names && member in Targets(groups, name) :: member
  }

  /** Pausing the groups of the first `count` models frees enough, and pausing
      those of fewer does not. */
  ghost predicate ShortestSufficient(
    required: Resources, node: Node, groups: Edges<string>, order: seq<string>, count: nat)
  {
    && 1 <= count <= |order|
    && Frees(required, node, GroupsOf(groups, order[..count]))
    && forall fewer :: 1 <= fewer < count ==> !Frees(required, node, GroupsOf(groups, order[..fewer]))
  }

  ghost predicate NoneSufficientUpTo(
    required: Resources, node: Node, groups: Edges<string>, order: seq<string>, count: nat)
    requires count <= |order|
  {
    forall fewer :: 1 <= fewer <= count ==> !Frees(required, node, GroupsOf(groups, order[..fewer]))
  }

  ghost predicate NoneSufficient(required: Resources, node: Node, groups: Edges<string>, order: seq<string>) {
    NoneSufficientUpTo(required, node, groups, order, |order|)
  }

  ghost predicate IsNodeAnswer(
    required: Resources, node: Node, groups: Edges<string>, order: seq<string>, answer: Option<seq<string>>)
  {
    match answer
    case None => NoneSufficient(required, node, groups, order)
    case Some(names) => Distinct(names) && IsShortestSufficient(required, node, groups, order, ToSet(names))
  }

  ghost predicate IsShortestSufficient(
    required: Resources, node: Node, groups: Edges<string>, order: seq<string>, names: set<string>)
  {
    exists count: nat ::
      ShortestSufficient(required, node, groups, order, count) && names == GroupsOf(groups, order[..count])
  }

  method LeastRecentlyUsedIdleModelsFreeing(
    models: Models, required: Resources, node: Node, groups: Edges<string>)
    returns (toPause: Option<seq<string>>)
    requires node.held.Valid()
    ensures IsListing(toPause)
    ensures AsSet(toPause) == Candidate(models, required, node, groups)
  {
    LeastRecentlyUsedMembers(models, node, groups);
    toPause := ShortestPrefixFreeing(required, node, groups, LeastRecentlyUsedFirst(models, node, groups));
    AnswerIsCandidate(models, required, node, groups, toPause);
    if toPause.Some? {
      DistinctLength(toPause.value);
    }
  }

  /** The loop over the models in `order`. */
  method ShortestPrefixFreeing(required: Resources, node: Node, groups: Edges<string>, order: seq<string>)
    returns (toPause: Option<seq<string>>)
    requires forall i :: 0 <= i < |order| ==> order[i] in groups
    ensures IsNodeAnswer(required, node, groups, order, toPause)
  {
    hide HasRoomFor, Frees, GroupsOf, IsFreeAfter;
    var freeAfterPause := node.free;
    var names: seq<string> := [];
    NothingPausedYet(node, groups, order);
    var i := 0;
    while i < |order|
      invariant 0 <= i <= |order|
      invariant Distinct(names) && ToSet(names) == GroupsOf(groups, order[..i])
      invariant IsFreeAfter(node, ToSet(names), freeAfterPause)
      invariant NoneSufficientUpTo(required, node, groups, order, i)
    {
      names, freeAfterPause := PauseGroup(node, names, groups[order[i]], freeAfterPause);
      GroupsOfNext(groups, order, i);
      FreesIffRoom(required, node, ToSet(names), freeAfterPause);
      i := i + 1;
      if HasRoomFor(required, freeAfterPause) {
        assert ShortestSufficient(required, node, groups, order, i);
        return Some(names);
      }
    }
    toPause := None;
  }

  lemma NothingPausedYet(node: Node, groups: Edges<string>, order: seq<string>)
    ensures GroupsOf(groups, order[..0]) == {} && IsFreeAfter(node, {}, node.free)
  {
  }

  /** The inner loop: pauses the members of `group` not paused yet. */
  method PauseGroup(node: Node, names: seq<string>, group: set<string>, free: Resources)
    returns (paused: seq<string>, freeAfter: Resources)
    requires Distinct(names) && IsFreeAfter(node, ToSet(names), free)
    ensures Distinct(paused) && ToSet(paused) == ToSet(names) + group
    ensures IsFreeAfter(node, ToSet(paused), freeAfter)
  {
    hide IsFreeAfter;
    var members := SortedStrings(group - ToSet(names));
    paused, freeAfter := names, free;
    var i := 0;
    while i < |members|
      invariant 0 <= i <= |members|
      invariant Distinct(paused)
      invariant ToSet(paused) == ToSet(names) + ToSet(members[..i])
      invariant IsFreeAfter(node, ToSet(paused), freeAfter)
    {
      var member := members[i];
      assert member in ToSet(members) && member !in ToSet(paused);
      ghost var before := freeAfter;
      freeAfter := AddResources(freeAfter, if member in node.held.at then node.held.at[member] else map[]);
      IsFreeAfterOneMore(node, ToSet(paused), member, before, freeAfter);
      assert ToSet(paused + [member]) == ToSet(paused) + {member};
      assert members[..i + 1] == members[..i] + [member];
      paused := paused + [member];
      i := i + 1;
    }
    assert members[..i] == members;
  }

  ghost predicate IsFreeAfter(node: Node, paused: set<string>, free: Resources) {
    forall name :: Amount(free, name) == Amount(node.free, name) + HeldBy(node, paused, name)
  }

  lemma IsFreeAfterOneMore(node: Node, paused: set<string>, member: string, before: Resources, after: Resources)
    requires member !in paused && IsFreeAfter(node, paused, before)
    requires forall name :: Amount(after, name) == Amount(before, name) + Held(node, member, name)
    ensures IsFreeAfter(node, paused + {member}, after)
  {
    forall name ensures Amount(after, name) == Amount(node.free, name) + HeldBy(node, paused + {member}, name) {
      SumAdd(paused, member, (model: string) => Held(node, model, name));
    }
  }

  lemma FreesIffRoom(required: Resources, node: Node, paused: set<string>, free: Resources)
    requires IsFreeAfter(node, paused, free)
    ensures Frees(required, node, paused) <==> HasRoomFor(required, free)
  {
    assert forall name :: Amount(free, name) == Amount(node.free, name) + HeldBy(node, paused, name);
  }

  lemma GroupsOfNext(groups: Edges<string>, order: seq<string>, i: nat)
    requires i < |order|
    ensures GroupsOf(groups, order[..i + 1]) == GroupsOf(groups, order[..i]) + Targets(groups, order[i])
  {
    assert order[..i + 1] == order[..i] + [order[i]];
  }

  lemma LeastRecentlyUsedMembers(models: Models, node: Node, groups: Edges<string>)
    requires node.held.Valid()
    ensures var order := LeastRecentlyUsedFirst(models, node, groups);
            Distinct(order) && forall name :: name in order <==> name in node.held.at && name in groups
  {
    var listed := Filter(node.held.keys, (name: string) => name in groups);
    FilterKeepsDistinct(node.held.keys, (name: string) => name in groups);
    SortByKeepsDistinct(listed, LastUsed(models));
    assert forall name :: name in SortBy(listed, LastUsed(models)) <==>
      name in ToSet(SortBy(listed, LastUsed(models)));
    assert forall name :: name in listed <==> name in ToSet(listed);
  }

  /******* All nodes: the node where the fewest models have to go *******/

  ghost predicate SomeNodeHasRoom(required: Resources, nodes: seq<Node>) {
    exists i :: 0 <= i < |nodes| && HasRoomFor(required, nodes[i].free)
  }

  /** What the search finds on one node; `ShortestIsUnique` makes it one set. */
  ghost function Candidate(models: Models, required: Resources, node: Node, groups: Edges<string>)
    : Option<set<string>>
  {
    var order := LeastRecentlyUsedFirst(models, node, groups);
    if exists names :: IsShortestSufficient(required, node, groups, order, names) then
      var names :| IsShortestSufficient(required, node, groups, order, names);
      Some(names)
    else None
  }

  ghost predicate AreCandidates(
    models: Models, required: Resources, nodes: seq<Node>, groups: Edges<string>,
    candidates: seq<Option<set<string>>>)
  {
    && |candidates| == |nodes|
    && forall i :: 0 <= i < |nodes| ==> candidates[i] == Candidate(models, required, nodes[i], groups)
  }

  /** The smallest candidate, and of the smallest the first. */
  ghost predicate IsFewestOf(candidates: seq<Option<set<string>>>, best: Option<set<string>>) {
    match best
    case None => forall i :: 0 <= i < |candidates| ==> candidates[i].None?
    case Some(names) =>
      exists i :: 0 <= i < |candidates| && candidates[i] == best &&
        forall j :: 0 <= j < |candidates| && candidates[j].Some? ==>
          |names| <= |candidates[j].value| && (j < i ==> |names| < |candidates[j].value|)
  }

  ghost predicate IsFewest(
    models: Models, required: Resources, nodes: seq<Node>, groups: Edges<string>, chosen: set<string>)
  {
    if SomeNodeHasRoom(required, nodes) then chosen == {}
    else exists candidates, best ::
      AreCandidates(models, required, nodes, groups, candidates) && IsFewestOf(candidates, best) &&
      chosen == if best.Some? then best.value else {}
  }

  function AsSet(names: Option<seq<string>>): Option<set<string>> {
    if names.Some? then Some(ToSet(names.value)) else None
  }

  /** No model is listed twice, so the length counts the models. */
  predicate IsListing(names: Option<seq<string>>) {
    names.Some? ==> |names.value| == |ToSet(names.value)|
  }

  method FewestIdleModelsToPauseFor(
    models: Models, required: Resources, nodes: seq<Node>, groups: Edges<string>)
    returns (chosen: set<string>)
    requires forall i :: 0 <= i < |nodes| ==> nodes[i].held.Valid()
    ensures IsFewest(models, required, nodes, groups, chosen)
  {
    hide Candidate;
    var fewest: Option<seq<string>> := None;
    ghost var candidates: seq<Option<set<string>>> := [];
    var i := 0;
    while i < |nodes|
      invariant 0 <= i <= |nodes|
      invariant forall j :: 0 <= j < i ==> !HasRoomFor(required, nodes[j].free)
      invariant AreCandidates(models, required, nodes[..i], groups, candidates)
      invariant IsListing(fewest)
      invariant IsFewestOf(candidates, AsSet(fewest))
    {
      if HasRoomFor(required, nodes[i].free) {
        return {};
      }
      var toPause := LeastRecentlyUsedIdleModelsFreeing(models, required, nodes[i], groups);
      FewestOfNext(candidates, fewest, toPause);
      fewest := Fewer(fewest, toPause);
      candidates := candidates + [AsSet(toPause)];
      i := i + 1;
    }
    assert nodes[..i] == nodes;
    chosen := if fewest.Some? then ToSet(fewest.value) else {};
  }

  /** Keeps the earlier answer unless the new one pauses fewer models. */
  function Fewer(best: Option<seq<string>>, answer: Option<seq<string>>): Option<seq<string>> {
    if answer.Some? && (best.None? || |answer.value| < |best.value|) then answer else best
  }

  lemma FewestOfNext(candidates: seq<Option<set<string>>>, best: Option<seq<string>>, answer: Option<seq<string>>)
    requires IsFewestOf(candidates, AsSet(best))
    requires IsListing(best) && IsListing(answer)
    ensures IsFewestOf(candidates + [AsSet(answer)], AsSet(Fewer(best, answer)))
  {
    var longer := candidates + [AsSet(answer)];
    assert longer[|candidates|] == AsSet(answer);
    if best.Some? {
      var i :| 0 <= i < |candidates| && candidates[i] == AsSet(best) &&
        forall j :: 0 <= j < |candidates| && candidates[j].Some? ==>
          |ToSet(best.value)| <= |candidates[j].value| && (j < i ==> |ToSet(best.value)| < |candidates[j].value|);
      assert longer[i] == AsSet(best);
    }
  }

  lemma AnswerIsCandidate(
    models: Models, required: Resources, node: Node, groups: Edges<string>, answer: Option<seq<string>>)
    requires IsNodeAnswer(required, node, groups, LeastRecentlyUsedFirst(models, node, groups), answer)
    ensures Candidate(models, required, node, groups) == AsSet(answer)
  {
    hide LeastRecentlyUsedFirst, Frees, GroupsOf;
    var order := LeastRecentlyUsedFirst(models, node, groups);
    if answer.Some? {
      assert IsShortestSufficient(required, node, groups, order, ToSet(answer.value));
      ShortestIsUnique(required, node, groups, order, ToSet(answer.value),
        Candidate(models, required, node, groups).value);
    }
  }

  lemma ShortestIsUnique(
    required: Resources, node: Node, groups: Edges<string>, order: seq<string>, names: set<string>, others: set<string>)
    requires IsShortestSufficient(required, node, groups, order, names)
    requires IsShortestSufficient(required, node, groups, order, others)
    ensures names == others
  {
    var a: nat :| ShortestSufficient(required, node, groups, order, a) && names == GroupsOf(groups, order[..a]);
    var b: nat :| ShortestSufficient(required, node, groups, order, b) && others == GroupsOf(groups, order[..b]);
    assert a == b;
  }
}
