/** cortexgrid/model_serving/lifecycle.py: deploying a model after everything
    it requires, against a Serve controller whose applications list is written
    whole, by one caller at a time. */
module ModelDeploy {
  import opened Common
  import opened Graph

  /** An app's name stands for its deployment key. */
  type App = string

  datatype Spec = Spec(name: App, body: string)

  datatype Status = NotStarted | Deploying | Running | Unhealthy | DeployFailed | Deleting

  /** One of an app's Serve deployments: how many replicas it is to have, and
      whether one is RUNNING. */
  datatype Replicas = Replicas(target: Option<nat>, running: bool)

  /** An application in the GET's answer. Only the apps of the last PUT have a
      spec: one being deleted, or started in the cluster, has none. */
  datatype Application = Application(status: Status, deployments: seq<Replicas>, spec: Option<Spec>)

  datatype Phase = Serve(status: Status) | Paused | NotDeployed
  {
    /** A phase that stands for a live app. */
    predicate Live() {
      Paused? || (Serve? && status != DeployFailed && status != Deleting)
    }
  }

  function PhaseOf(app: Application): Phase {
    if app.status != Running then Serve(app.status)
    else if app.deployments != [] && forall d :: d in app.deployments ==> d.target == Some(0) then Paused
    else if
      (exists d :: d in app.deployments && d.target.GetOr(0) > 0) && !exists d :: d in app.deployments && d.running
    then Serve(Deploying)
    else Serve(app.status)
  }

  /** All of a RUNNING app's deployments are to have no replica. */
  ghost predicate ScaledToZero(app: Application) {
    app.deployments != [] && forall i :: 0 <= i < |app.deployments| ==> app.deployments[i].target == Some(0)
  }

  /** Some replicas are to run, and none does. */
  ghost predicate Resuming(app: Application) {
    && (exists i, n :: 0 <= i < |app.deployments| && app.deployments[i].target == Some(n) && n > 0)
    && (forall i :: 0 <= i < |app.deployments| ==> !app.deployments[i].running)
  }

  /** Scaled to zero reads as paused, coming back from there as deploying, and
      all else as the controller has it. */
  lemma PhaseMeaning(app: Application)
    ensures PhaseOf(app) == Paused <==> app.status == Running && ScaledToZero(app)
    ensures PhaseOf(app) == Serve(Deploying) <==> app.status == Deploying || (app.status == Running && Resuming(app))
    ensures PhaseOf(app) == Paused || PhaseOf(app) == Serve(Deploying) || PhaseOf(app) == Serve(app.status)
  {
    if ScaledToZero(app) {
      assert forall i :: 0 <= i < |app.deployments| ==> app.deployments[i].target == Some(0);
    }
    if exists d :: d in app.deployments && d.target.GetOr(0) > 0 {
      var d :| d in app.deployments && d.target.GetOr(0) > 0;
      assert d.target == Some(d.target.value);
    }
  }

  /** What `observed` makes of the controller's answer, the control plane's own
      look at a deployment. */
  function Observed(app: Option<Application>): Phase {
    if app.None? then NotDeployed else PhaseOf(app.value)
  }

  /** What a deploy records: it looks an app that is not there up as an empty
      dict, which has no status and reads as deploying. */
  function ObservedByDeploy(app: Option<Application>): Phase {
    if app.None? then Serve(Deploying) else PhaseOf(app.value)
  }

  /** The two agree exactly while the controller lists the app; where they
      differ the record stands for a live app that does not exist. */
  lemma ObservationsAgreeIff(app: Option<Application>)
    ensures ObservedByDeploy(app) == Observed(app) <==> app.Some?
    ensures app.None? ==> ObservedByDeploy(app).Live() && !Observed(app).Live()
  {
  }

  datatype Record = Record(spec: Spec, tiers: seq<nat>, phase: Phase)

  datatype Required = Required(app: App, replicas: nat)

  /** What went on around the caller before its next look: what the controller
      reports, the phases the jobs control plane observed, the GPU tiers, and
      whether the caller's deadline has passed. */
  datatype Moment = Moment(
    seen: map<App, (Status, seq<Replicas>)>, phases: map<App, Phase>, tiers: seq<nat>, late: bool)

  predicate OnePerName(specs: seq<Spec>) {
    forall i: nat, j: nat :: i < |specs| && j < |specs| && specs[i].name == specs[j].name ==> i == j
  }

  /** The body of a PUT: Serve refuses a list that names an app twice. */
  type AppList = specs: seq<Spec> | OnePerName(specs)

  function ByName(specs: AppList): map<App, Spec> {
    map spec | spec in specs :: spec.name := spec
  }

  lemma AppendSpec(specs: AppList, spec: Spec)
    requires spec.name !in ByName(specs)
    ensures OnePerName(specs + [spec])
    ensures ByName(specs + [spec]) == ByName(specs)[spec.name := spec]
  {
    forall i: nat | i < |specs| ensures specs[i].name != spec.name {
      assert specs[i] in specs;
    }
    assert forall s :: s in specs + [spec] <==> s in specs || s == spec;
  }

  /** The specs of `wanted` under the names gone through so far. */
  ghost predicate Lists(specs: AppList, wanted: map<App, Spec>, names: set<App>) {
    forall s :: s in specs <==> s.name in names && s.name in wanted && wanted[s.name] == s
  }

  lemma NothingListed(wanted: map<App, Spec>)
    ensures OnePerName([]) && Lists([], wanted, ToSet<App>([]))
  {
  }

  lemma ListNext(specs: AppList, wanted: map<App, Spec>, names: set<App>, app: App)
    requires Lists(specs, wanted, names) && app !in names
    requires app in wanted && wanted[app].name == app
    ensures OnePerName(specs + [wanted[app]])
    ensures Lists(specs + [wanted[app]], wanted, names + {app})
  {
    AppendSpec(specs, wanted[app]);
    assert forall s :: s in specs + [wanted[app]] <==> s in specs || s == wanted[app];
  }

  lemma ListWithout(specs: AppList, wanted: map<App, Spec>, names: set<App>, app: App)
    requires Lists(specs, wanted, names) && app !in wanted
    ensures Lists(specs, wanted, names + {app})
  {
  }

  lemma AllListed(specs: AppList, wanted: map<App, Spec>, names: set<App>)
    requires Lists(specs, wanted, names) && wanted.Keys <= names
    requires forall app :: app in wanted ==> wanted[app].name == app
    ensures ByName(specs) == wanted
  {
    forall app | app in wanted ensures app in ByName(specs) {
      assert wanted[app] in specs;
    }
  }

  datatype Change = Adds(spec: Spec) | Removes(gone: App)
  {
    function Subject(): App {
      if Adds? then spec.name else gone
    }
  }

  /** What one caller saw of an app (None: it does not exist), the record it
      looked up, what it PUT, and what another caller PUT meanwhile. */
  datatype Event =
    | Saw(app: App, status: Option<Status>)
    | LookedUp(app: App, record: Option<Record>)
    | Put(change: Change, specs: AppList)
    | OthersPut(specs: AppList)
  {
    predicate Touches(name: App) {
      Put? && change.Subject() == name
    }
  }

  /** The applications the last PUT asked for. */
  ghost function Target(start: map<App, Spec>, trace: seq<Event>): map<App, Spec> {
    if trace == [] then start
    else match trace[|trace| - 1]
      case Put(_, specs) => ByName(specs)
      case OthersPut(specs) => ByName(specs)
      case Saw(_, _) => Target(start, trace[..|trace| - 1])
      case LookedUp(_, _) => Target(start, trace[..|trace| - 1])
  }

  /** Seen RUNNING at or after `from`, and not PUT or removed since. */
  ghost predicate Settled(trace: seq<Event>, from: nat, app: App) {
    exists j: nat :: from <= j < |trace| && trace[j] == Saw(app, Some(Running)) && Untouched(trace, j, app)
  }

  ghost predicate Untouched(trace: seq<Event>, from: nat, app: App) {
    forall k: nat :: from <= k < |trace| ==> !trace[k].Touches(app)
  }

  ghost predicate AllSettled(edges: Edges<App>, trace: seq<Event>, from: nat, app: App) {
    forall r :: Reachable(edges, app, r) ==> Settled(trace, from, r)
  }

  /** An app is PUT only when all it transitively requires is settled, when it
      was not just seen failed or being deleted, and when the PUT changes its
      spec; it is removed only when it was just seen failed. Either way every
      other app keeps its spec. Nobody else PUTs. */
  ghost predicate Lawful(edges: Edges<App>, start: map<App, Spec>, before: seq<Event>, from: nat, event: Event) {
    var target := Target(start, before);
    match event
    case Saw(_, _) => true
    case LookedUp(_, _) => true
    case OthersPut(_) => false
    case Put(Adds(spec), specs) =>
      && ByName(specs) == target[spec.name := spec]
      && !(spec.name in target && target[spec.name] == spec)
      && from < |before| && Startable(before[|before| - 1], spec.name)
      && AllSettled(edges, before, from, spec.name)
    case Put(Removes(app), specs) =>
      && ByName(specs) == target - {app}
      && from < |before| && before[|before| - 1] == Saw(app, Some(DeployFailed))
  }

  ghost predicate Startable(event: Event, app: App) {
    event.Saw? && event.app == app && event.status != Some(DeployFailed) && event.status != Some(Deleting)
  }

  /** Every event at or after `from` is lawful, judged by what is before it. */
  ghost predicate LawfulFrom(edges: Edges<App>, start: map<App, Spec>, trace: seq<Event>, from: nat) {
    forall i: nat :: from <= i < |trace| ==> Lawful(edges, start, trace[..i], from, trace[i])
  }

  /** From `from` on only `app` and what it requires was PUT or removed. */
  ghost predicate TouchesOnly(edges: Edges<App>, trace: seq<Event>, from: nat, app: App) {
    forall i: nat, y :: from <= i < |trace| && trace[i].Touches(y) ==> y == app || Reachable(edges, app, y)
  }

  ghost predicate Acyclic(edges: Edges<App>) {
    forall x :: !Reachable(edges, x, x)
  }

  ghost function Below(edges: Edges<App>, app: App): set<App> {
    set y | y in AllTargets(edges) && Reachable(edges, app, y)
  }

  /** What is required comes strictly lower, so the recursion ends. */
  lemma RequiredIsBelow(edges: Edges<App>, app: App, required: App)
    requires Acyclic(edges) && required in Targets(edges, app)
    ensures Below(edges, required) < Below(edges, app)
    ensures Reachable(edges, app, required)
  {
    EdgeReaches(edges, app, required);
    forall y | y in Below(edges, required) ensures y in Below(edges, app) {
      ReachableTransitive(edges, app, required, y);
    }
    assert required in Below(edges, app) && required !in Below(edges, required);
  }

  /** Whatever is reached is required directly, or by what is. */
  lemma FirstStep(edges: Edges<App>, app: App, y: App)
    requires Reachable(edges, app, y)
    ensures exists m :: m in Targets(edges, app) && (m == y || Reachable(edges, m, y))
  {
    var p :| IsPathFromTo(edges, p, app, y);
    assert p[1] in Targets(edges, p[0]);
    if |p| > 2 {
      var q := p[1..];
      forall i | 0 <= i < |q| - 1 ensures q[i + 1] in Targets(edges, q[i]) {
        assert p[i + 2] in Targets(edges, p[i + 1]);
      }
      assert IsPathFromTo(edges, q, p[1], y);
    }
  }

  lemma SettledStays(trace: seq<Event>, from: nat, app: App, later: seq<Event>)
    requires Settled(trace, from, app) && trace <= later && Untouched(later, |trace|, app)
    ensures Settled(later, from, app)
  {
    var j: nat :| from <= j < |trace| && trace[j] == Saw(app, Some(Running)) && Untouched(trace, j, app);
    assert later[j] == trace[j];
    forall k: nat | j <= k < |later| ensures !later[k].Touches(app) {
      if k < |trace| {
        assert later[k] == trace[k];
      }
    }
  }

  lemma SettledEarlier(trace: seq<Event>, from: nat, since: nat, app: App)
    requires Settled(trace, since, app) && from <= since
    ensures Settled(trace, from, app)
  {
  }

  lemma LawfulEarlier(edges: Edges<App>, start: map<App, Spec>, before: seq<Event>, from: nat, since: nat, event: Event)
    requires Lawful(edges, start, before, since, event) && from <= since
    ensures Lawful(edges, start, before, from, event)
  {
  }

  /** A call's lawful events make the longer run lawful. */
  lemma LawfulExtends(edges: Edges<App>, start: map<App, Spec>, before: seq<Event>, trace: seq<Event>, from: nat)
    requires from <= |before| && before <= trace
    requires LawfulFrom(edges, start, before, from) && LawfulFrom(edges, start, trace, |before|)
    ensures LawfulFrom(edges, start, trace, from)
  {
    forall i: nat | from <= i < |trace| ensures Lawful(edges, start, trace[..i], from, trace[i]) {
      if i < |before| {
        assert trace[..i] == before[..i] && trace[i] == before[i];
      } else {
        LawfulEarlier(edges, start, trace[..i], from, |before|, trace[i]);
      }
    }
  }

  /** A lawful run keeps the spec of every app it did not touch, or its
      absence. */
  lemma {:induction false} UntouchedKeepsSpec(
    edges: Edges<App>, start: map<App, Spec>, trace: seq<Event>, from: nat, app: App)
    requires from <= |trace|
    requires LawfulFrom(edges, start, trace, from) && Untouched(trace, from, app)
    ensures SameSpec(Target(start, trace[..from]), Target(start, trace), app)
  {
    if from == |trace| {
      assert trace[..from] == trace;
    } else {
      var last := |trace| - 1;
      var before := trace[..last];
      assert before[..from] == trace[..from];
      forall i: nat | from <= i < last ensures Lawful(edges, start, before[..i], from, before[i]) {
        assert before[..i] == trace[..i];
      }
      UntouchedKeepsSpec(edges, start, before, from, app);
      assert Lawful(edges, start, before, from, trace[last]) && !trace[last].Touches(app);
    }
  }

  datatype Outcome = Deployed(spec: Spec, fromRecord: bool) | Unregistered | Failed | Missing | TimedOut

  /** What a call that does not deploy ran into: a model that is not in the
      registry, the deadline, or an app that it had to wait for, recorded, and
      that it last saw failed or not at all. */
  ghost predicate Explained(
    outcome: Outcome, edges: Edges<App>, app: App, wait: bool, recorded: set<App>, trace: seq<Event>, late: bool)
  {
    match outcome
    case Deployed(_, _) => true
    case Unregistered => exists y :: y !in edges && (y == app || Reachable(edges, app, y))
    case Failed => LastSaw(edges, app, wait, recorded, trace, Some(DeployFailed))
    case Missing => LastSaw(edges, app, wait, recorded, trace, None)
    case TimedOut => late
  }

  ghost predicate LastSaw(
    edges: Edges<App>, app: App, wait: bool, recorded: set<App>, trace: seq<Event>, status: Option<Status>)
  {
    trace != [] && trace[|trace| - 1].Saw? && trace[|trace| - 1].status == status &&
    var y := trace[|trace| - 1].app;
    y in recorded && ((wait && y == app) || Reachable(edges, app, y))
  }

  lemma ExplainedAbove(
    outcome: Outcome, edges: Edges<App>, app: App, wait: bool, next: App, recorded: set<App>, trace: seq<Event>,
    late: bool)
    requires Reachable(edges, app, next) && Explained(outcome, edges, next, true, recorded, trace, late)
    ensures Explained(outcome, edges, app, wait, recorded, trace, late)
  {
    if outcome.Unregistered? {
      var y :| y !in edges && (y == next || Reachable(edges, next, y));
      if y != next {
        ReachableTransitive(edges, app, next, y);
      }
    } else if outcome.Failed? || outcome.Missing? {
      var y := trace[|trace| - 1].app;
      if y != next {
        ReachableTransitive(edges, app, next, y);
      }
    }
  }

  /** Apps other than `app` and what it requires are as they were. */
  ghost predicate OthersKept(edges: Edges<App>, before: map<App, Spec>, after: map<App, Spec>, app: App) {
    forall y :: y != app && !Reachable(edges, app, y) ==> SameSpec(before, after, y)
  }

  ghost predicate SameSpec(before: map<App, Spec>, after: map<App, Spec>, y: App) {
    (y in after <==> y in before) && (y in after ==> after[y] == before[y])
  }

  /** A lawful run keeps the spec of every app it has no business with. */
  lemma RunKeepsOthers(edges: Edges<App>, start: map<App, Spec>, begun: seq<Event>, trace: seq<Event>, app: App)
    requires begun <= trace
    requires LawfulFrom(edges, start, trace, |begun|) && TouchesOnly(edges, trace, |begun|, app)
    ensures OthersKept(edges, Target(start, begun), Target(start, trace), app)
  {
    assert trace[..|begun|] == begun;
    forall y | y != app && !Reachable(edges, app, y) ensures SameSpec(Target(start, begun), Target(start, trace), y) {
      UntouchedKeepsSpec(edges, start, trace, |begun|, y);
    }
  }

  function SpecsOf(apps: map<App, Application>): map<App, Spec> {
    map app | app in apps && apps[app].spec.Some? :: apps[app].spec.value
  }

  /** The controller's next answer: new statuses, and the apps without a spec
      that it no longer lists are gone. */
  function Moved(apps: map<App, Application>, seen: map<App, (Status, seq<Replicas>)>): map<App, Application> {
    map app | app in SpecsOf(apps).Keys + seen.Keys ::
      Application(if app in seen then seen[app].0 else apps[app].status,
                  if app in seen then seen[app].1 else apps[app].deployments,
                  if app in apps then apps[app].spec else None)
  }

  lemma MovedKeepsSpecs(apps: map<App, Application>, seen: map<App, (Status, seq<Replicas>)>)
    ensures SpecsOf(Moved(apps, seen)) == SpecsOf(apps)
  {
  }

  /** What a PUT leaves behind: a spec that is new or changed is deploying, one
      that is left out is deleted. */
  function AsPut(apps: map<App, Application>, wanted: map<App, Spec>): map<App, Application> {
    map app | app in apps.Keys + wanted.Keys ::
      if app in wanted then
        if app in apps && apps[app].spec == Some(wanted[app]) then apps[app]
        else Application(Deploying, [], Some(wanted[app]))
      else if apps[app].spec.Some? then Application(Deleting, [], None)
      else apps[app]
  }

  lemma AsPutStores(apps: map<App, Application>, wanted: map<App, Spec>)
    ensures SpecsOf(AsPut(apps, wanted)) == wanted
  {
  }

  class Deployer {
    /** The registry: which deployments each model requires. */
    const registry: map<App, seq<Required>>
    /** The rest of a spec, from the key, the replica count and the tiers. */
    const body: (App, nat, seq<nat>) -> string
    /** What was PUT before the trace began. */
    ghost const start: map<App, Spec>

    var apps: map<App, Application>
    var records: map<App, Record>
    var tiers: seq<nat>
    var script: seq<Moment>
    var late: bool
    ghost var trace: seq<Event>

    function Build(app: App, replicas: nat, tiers: seq<nat>): Spec {
      Spec(app, body(app, replicas, tiers))
    }

    function Needs(): Edges<App> {
      map app | app in registry :: set r | r in registry[app] :: r.app
    }

    /** The specs the controller stores. */
    function Stored(): map<App, Spec>
      reads this`apps
    {
      SpecsOf(apps)
    }

    function Listed(app: App): Option<Application>
      reads this`apps
    {
      if app in apps then Some(apps[app]) else None
    }

    ghost predicate Valid()
      reads this
    {
      && (forall app :: app in apps && apps[app].spec.Some? ==> apps[app].spec.value.name == app)
      && Stored() == Target(start, trace)
    }

    /** Records change only in the phase, which the jobs control plane keeps. */
    twostate predicate SameRecords()
      reads this
    {
      && records.Keys == old(records.Keys)
      && forall app :: app in records ==> records[app].(phase := Paused) == old(records[app]).(phase := Paused)
    }

    /** Time passes: the controller changes what it reports and drops apps that
        have no spec, but never the specs. The deadline has passed once the
        script has run out. */
    method Elapse()
      requires Valid()
      modifies this`apps, this`records, this`tiers, this`script, this`late
      ensures Valid() && Stored() == old(Stored())
      ensures SameRecords()
      ensures late || |script| < |old(script)|
      ensures |script| <= |old(script)|
      ensures old(script) != [] ==> apps.Keys == Stored().Keys + old(script)[0].seen.Keys
    {
      if script == [] {
        late := true;
        return;
      }
      var now := script[0];
      script, tiers, late := script[1..], now.tiers, now.late;
      MovedKeepsSpecs(apps, now.seen);
      apps := Moved(apps, now.seen);
      records := map app | app in records ::
        if app in now.phases then records[app].(phase := now.phases[app]) else records[app];
    }

    /** The stored specs, in some order, without the named app's. */
    method SpecsExcept(name: App) returns (specs: AppList)
      requires Valid()
      ensures ByName(specs) == Stored() - {name}
    {
      hide OnePerName, Lists;
      ghost var wanted := Stored() - {name};
      NothingListed(wanted);
      specs := [];
      var names := Enumerate(apps.Keys);
      var i := 0;
      while i < |names|
        invariant i <= |names|
        invariant Lists(specs, wanted, ToSet(names[..i]))
      {
        var app := names[i];
        assert app in ToSet(names);
        assert ToSet(names[..i + 1]) == ToSet(names[..i]) + {app};
        if apps[app].spec.Some? && apps[app].spec.value.name != name {
          ListNext(specs, wanted, ToSet(names[..i]), app);
          specs := specs + [apps[app].spec.value];
        } else {
          ListWithout(specs, wanted, ToSet(names[..i]), app);
        }
        i := i + 1;
      }
      assert names[..i] == names;
      AllListed(specs, wanted, apps.Keys);
    }

    /** The declarative PUT: what the list leaves out is deleted, what it brings
        or changes is deploying by the time the call returns. */
    method PutApplications(ghost event: Event, specs: AppList)
      requires Valid() && (event.Put? || event.OthersPut?) && event.specs == specs
      modifies this`apps, this`trace
      ensures Valid() && Stored() == ByName(specs)
      ensures trace == old(trace) + [event]
    {
      AsPutStores(apps, ByName(specs));
      apps := AsPut(apps, ByName(specs));
      trace := trace + [event];
    }

    method Look(app: App) returns (status: Option<Status>)
      requires Valid()
      modifies this`apps, this`records, this`tiers, this`script, this`late, this`trace
      ensures Valid() && Stored() == old(Stored()) && SameRecords()
      ensures late || |script| < |old(script)|
      ensures |script| <= |old(script)|
      ensures trace == old(trace) + [Saw(app, status)]
      ensures status == if app in apps then Some(apps[app].status) else None
    {
      Elapse();
      status := if app in apps then Some(apps[app].status) else None;
      trace := trace + [Saw(app, status)];
    }

    method LookUp(app: App) returns (record: Option<Record>)
      requires Valid()
      modifies this`apps, this`records, this`tiers, this`script, this`late, this`trace
      ensures Valid() && Stored() == old(Stored()) && SameRecords()
      ensures trace == old(trace) + [LookedUp(app, record)]
      ensures record == if app in records then Some(records[app]) else None
    {
      Elapse();
      record := if app in records then Some(records[app]) else None;
      trace := trace + [LookedUp(app, record)];
    }

    /** Only looks, until the app is RUNNING. */
    method WaitRunning(app: App) returns (problem: Option<Outcome>)
      requires Valid()
      modifies this`apps, this`records, this`tiers, this`script, this`late, this`trace
      ensures Valid() && Stored() == old(Stored()) && SameRecords()
      ensures OnlyLooked(old(trace), trace) && |old(trace)| < |trace|
      ensures match problem
              case None => trace[|trace| - 1] == Saw(app, Some(Running))
              case Some(Failed) => trace[|trace| - 1] == Saw(app, Some(DeployFailed))
              case Some(Missing) => trace[|trace| - 1] == Saw(app, None)
              case Some(TimedOut) => late
              case _ => false
    {
      while true
        invariant Valid() && Stored() == old(Stored()) && SameRecords()
        invariant OnlyLooked(old(trace), trace)
        decreases |script|
      {
        var status := Look(app);
        match status
        case None => return Some(Missing);
        case Some(DeployFailed) => return Some(Failed);
        case Some(Running) => return None;
        case Some(_) =>
          if late {
            return Some(TimedOut);
          }
      }
    }

    method Undeploy(app: App)
      requires Valid()
      modifies this
      ensures Valid() && Stored() == old(Stored()) - {app}
      ensures records.Keys == old(records.Keys) - {app}
      ensures |trace| == |old(trace)| + 1 && old(trace) <= trace
      ensures trace[|trace| - 1].Put? && trace[|trace| - 1].change == Removes(app)
      ensures ByName(trace[|trace| - 1].specs) == Stored()
    {
      Elapse();
      var remaining := SpecsExcept(app);
      PutApplications(Put(Removes(app), remaining), remaining);
      records := records - {app};
    }

    /** Only looks, until the app is gone. */
    method WaitGone(app: App) returns (gone: bool)
      requires Valid()
      modifies this`apps, this`records, this`tiers, this`script, this`late, this`trace
      ensures Valid() && Stored() == old(Stored()) && SameRecords()
      ensures OnlyLooked(old(trace), trace) && |old(trace)| < |trace|
      ensures if gone then trace[|trace| - 1] == Saw(app, None) else late
    {
      while true
        invariant Valid() && Stored() == old(Stored()) && SameRecords()
        invariant OnlyLooked(old(trace), trace)
        decreases |script|
      {
        var status := Look(app);
        if status == None {
          return true;
        }
        if late {
          return false;
        }
      }
    }

    method RemoveFailed(app: App, ghost from: nat)
      requires Valid() && from < |trace| && trace[|trace| - 1] == Saw(app, Some(DeployFailed))
      requires LawfulFrom(Needs(), start, trace, from) && TouchesJust(trace, from, app)
      modifies this
      ensures Valid() && old(trace) <= trace
      ensures LawfulFrom(Needs(), start, trace, from) && TouchesJust(trace, from, app)
      ensures NoLookups(trace, |old(trace)|)
    {
      hide LawfulFrom, Target;
      ghost var seen := trace;
      Undeploy(app);
      LawfulNext(Needs(), start, seen, trace[|seen|], from);
      assert trace == seen + [trace[|seen|]];
    }

    /** A failed app is removed, and it or one already being deleted waited
        out: whatever is PUT next does not land on a failed app. */
    method ClearFailed(app: App) returns (cleared: bool)
      requires Valid()
      modifies this
      ensures Valid() && old(trace) <= trace
      ensures LawfulFrom(Needs(), start, trace, |old(trace)|)
      ensures TouchesJust(trace, |old(trace)|, app)
      ensures cleared ==> |old(trace)| < |trace| && Startable(trace[|trace| - 1], app)
      ensures !cleared ==> late
      ensures NoLookups(trace, |old(trace)|)
    {
      hide LawfulFrom, Target, Lawful, TouchesJust;
      ghost var from := trace;
      NothingTouched(from, app);
      var status := Look(app);
      NothingYet(Needs(), start, from, app);
      LooksAreLawful(Needs(), start, from, trace, |from|);
      LooksTouchNothing(from, trace, |from|, app);
      if status == Some(DeployFailed) {
        RemoveFailed(app, |from|);
      } else if status != Some(Deleting) {
        return true;
      }
      ghost var begun := trace;
      cleared := WaitGone(app);
      LooksAreLawful(Needs(), start, begun, trace, |from|);
      LooksTouchNothing(begun, trace, |from|, app);
    }

    /** The stored specs, the given one in the place of its app's. */
    method SpecsWith(spec: Spec) returns (specs: AppList)
      requires Valid()
      modifies this`apps, this`records, this`tiers, this`script, this`late
      ensures Valid() && Stored() == old(Stored())
      ensures ByName(specs) == Stored()[spec.name := spec]
    {
      Elapse();
      var existing := SpecsExcept(spec.name);
      AppendSpec(existing, spec);
      specs := existing + [spec];
    }

    /** PUTs the spec in place of the app's last one, unless it is the app's
        already. */
    method PutUnlessThere(app: App, spec: Spec, ghost from: nat)
      requires Valid() && spec.name == app
      requires from < |trace| && Startable(trace[|trace| - 1], app)
      requires LawfulFrom(Needs(), start, trace, from) && AllSettled(Needs(), trace, from, app)
      modifies this
      ensures Valid() && old(trace) <= trace && Stored() == old(Stored())[app := spec]
      ensures LawfulFrom(Needs(), start, trace, from)
      ensures TouchesJust(trace, |old(trace)|, app)
      ensures trace == old(trace) || (|trace| == |old(trace)| + 1 && IsAddition(trace[|old(trace)|], spec))
    {
      hide LawfulFrom, AllSettled, Target, OnePerName;
      Elapse();
      if app in apps && apps[app].spec == Some(spec) {
        return;
      }
      var spliced := SpecsWith(spec);
      AdditionIsLawful(Needs(), start, trace, from, spec, spliced);
      PutApplications(Put(Adds(spec), spliced), spliced);
    }

    /** `spec` is one this deploy would PUT, for the tiers of some moment. */
    ghost predicate BuiltFor(spec: Spec, app: App, replicas: nat) {
      exists t :: spec == Build(app, replicas, t)
    }

    /** The record stands for a live app and is of the very spec that would be
        built for the tiers it was deployed with. */
    ghost predicate AnswersFor(record: Option<Record>, app: App, replicas: nat) {
      && record.Some?
      && (match record.value.phase
          case Paused => true
          case NotDeployed => false
          case Serve(status) =>
            status == Running || status == Deploying || status == NotStarted || status == Unhealthy)
      && record.value.spec == Spec(app, body(app, replicas, record.value.tiers))
    }

    /** The app's record was looked up once, and the answer came from it exactly
        if it was good for one. */
    ghost predicate AnsweredAsLookedUp(trace: seq<Event>, from: nat, app: App, replicas: nat, fromRecord: bool) {
      exists k: nat :: from <= k < |trace| && IsLookup(trace[k], app) && NoLookups(trace, k + 1) &&
        (fromRecord <==> AnswersFor(trace[k].record, app, replicas))
    }

    /** A record of this very spec, its app live, makes the deploy a lookup. */
    predicate RecordIsCurrent(app: App, replicas: nat)
      reads this`records
    {
      app in records && records[app].phase.Live() && records[app].spec == Build(app, replicas, records[app].tiers)
    }

    /** Writes the record of what was PUT, with the phase the app has by then. */
    method PutRecord(app: App, spec: Spec, tiersPut: seq<nat>)
      requires Valid()
      modifies this`apps, this`records, this`tiers, this`script, this`late
      ensures Valid() && Stored() == old(Stored())
      ensures app in records
      ensures records[app] == Record(spec, tiersPut, if app in apps then PhaseOf(apps[app]) else Serve(Deploying))
      ensures old(script) != [] ==> apps.Keys == Stored().Keys + old(script)[0].seen.Keys
    {
      Elapse();
      records := records[app := Record(spec, tiersPut, ObservedByDeploy(Listed(app)))];
    }

    method PatchRecord(app: App)
      requires Valid()
      modifies this`apps, this`records, this`tiers, this`script, this`late
      ensures Valid() && Stored() == old(Stored()) && SameRecords()
      ensures app in records ==>
        records[app].phase == if app in apps then PhaseOf(apps[app]) else Serve(Deploying)
    {
      Elapse();
      if app in records {
        records := records[app := records[app].(phase := ObservedByDeploy(Listed(app)))];
      }
    }

    /** The end of a deploy into which another caller's PUT falls: that caller
        read the list before `app` was added, and the controller has dropped
        the app by the next look. Then the record says deploying, and a
        redeploy takes it for current, of an app that does not exist. */
    method RecordAfterOthersPut(app: App, replicas: nat, tiersPut: seq<nat>, theirs: AppList)
      requires Valid() && app in Stored() && Stored()[app] == Build(app, replicas, tiersPut)
      requires app !in ByName(theirs) && script != [] && app !in script[0].seen
      modifies this
      ensures Valid() && trace == old(trace) + [OthersPut(theirs)]
      ensures Listed(app).None? && Observed(Listed(app)) == NotDeployed
      ensures app in records && records[app].phase == Serve(Deploying) && RecordIsCurrent(app, replicas)
    {
      PutApplications(OthersPut(theirs), theirs);
      PutRecord(app, Build(app, replicas, tiersPut), tiersPut);
    }

    /** Clears a failed app, PUTs the spec and records it. */
    method PlaceAnew(app: App, replicas: nat, ghost from: nat) returns (outcome: Outcome)
      requires Valid() && from <= |trace| && !Reachable(Needs(), app, app)
      requires LawfulFrom(Needs(), start, trace, from) && AllSettled(Needs(), trace, from, app)
      modifies this
      ensures Valid() && old(trace) <= trace
      ensures LawfulFrom(Needs(), start, trace, from)
      ensures TouchesJust(trace, |old(trace)|, app)
      ensures if outcome.TimedOut? then late else outcome.Deployed? && !outcome.fromRecord
      ensures outcome.Deployed? ==> app in records && records[app].spec == outcome.spec
      ensures outcome.Deployed? ==> BuiltFor(outcome.spec, app, replicas)
      ensures outcome.Deployed? ==> app in Stored() && Stored()[app] == outcome.spec
      ensures NoLookups(trace, |old(trace)|)
      ensures outcome.Deployed? ==> PutAfresh(trace, |old(trace)|, app, outcome.spec)
    {
      hide LawfulFrom, AllSettled, Target, OnePerName, Untouched;
      ghost var begun := trace;
      Elapse();
      var tiersNow := tiers;
      var spec := Build(app, replicas, tiersNow);
      var cleared := ClearFailed(app);
      LawfulExtends(Needs(), start, begun, trace, from);
      if !cleared {
        return TimedOut;
      }
      OwnEventsKeepSettled(Needs(), begun, trace, from, app);
      ghost var startable := trace;
      PutUnlessThere(app, spec, from);
      AddedOrThere(startable, trace, |begun|, app, spec);
      PutRecord(app, spec, tiersNow);
      outcome := Deployed(spec, false);
    }

    lemma CurrentIffAnswers(app: App, replicas: nat, record: Option<Record>)
      requires record == if app in records then Some(records[app]) else None
      ensures RecordIsCurrent(app, replicas) <==> AnswersFor(record, app, replicas)
    {
    }

    lemma AnsweredOnceLookedUp(
      before: seq<Event>, after: seq<Event>, record: Option<Record>, app: App, replicas: nat, fromRecord: bool)
      requires before + [LookedUp(app, record)] <= after && NoLookups(after, |before| + 1)
      requires fromRecord <==> AnswersFor(record, app, replicas)
      ensures AnsweredAsLookedUp(after, |before|, app, replicas, fromRecord)
    {
      hide AnswersFor, NoLookups;
      assert after[|before|] == (before + [LookedUp(app, record)])[|before|];
    }

    lemma AnsweredStays(
      before: seq<Event>, after: seq<Event>, from: nat, app: App, replicas: nat, fromRecord: bool)
      requires AnsweredAsLookedUp(before, from, app, replicas, fromRecord) && OnlyLooked(before, after)
      ensures AnsweredAsLookedUp(after, from, app, replicas, fromRecord)
    {
      hide AnswersFor;
      var k: nat :| from <= k < |before| && IsLookup(before[k], app) && NoLookups(before, k + 1) &&
        (fromRecord <==> AnswersFor(before[k].record, app, replicas));
      assert after[k] == before[k];
      NoLookupsJoin(before, after, k + 1);
    }

    /** Answers from the record if it is current, and otherwise places the app
        anew. */
    method AnswerOrPlace(app: App, replicas: nat, ghost from: nat) returns (outcome: Outcome)
      requires Valid() && from <= |trace| && !Reachable(Needs(), app, app)
      requires LawfulFrom(Needs(), start, trace, from) && AllSettled(Needs(), trace, from, app)
      modifies this
      ensures Valid() && old(trace) <= trace
      ensures LawfulFrom(Needs(), start, trace, from)
      ensures TouchesJust(trace, |old(trace)|, app)
      ensures outcome.Deployed? ==> app in records && records[app].spec == outcome.spec
      ensures outcome.Deployed? ==> BuiltFor(outcome.spec, app, replicas)
      ensures outcome.Deployed? && !outcome.fromRecord ==> app in Stored() && Stored()[app] == outcome.spec
      ensures if outcome.TimedOut? then late else outcome.Deployed?
      ensures outcome.Deployed? ==> AnsweredAsLookedUp(trace, |old(trace)|, app, replicas, outcome.fromRecord)
      ensures outcome.Deployed? && !outcome.fromRecord ==> PutAfresh(trace, |old(trace)|, app, outcome.spec)
    {
      hide LawfulFrom, AllSettled, Target, AnsweredAsLookedUp, AnswersFor, NoLookups, PutAfresh, TouchesJust;
      ghost var begun := trace;
      var record := LookUp(app);
      ghost var looked := trace;
      LookupIsLawful(Needs(), start, begun, trace, from, app);
      CurrentIffAnswers(app, replicas, record);
      if RecordIsCurrent(app, replicas) {
        outcome := Deployed(records[app].spec, true);
        NothingLookedUp(trace);
      } else {
        outcome := PlaceAnew(app, replicas, from);
        TouchesJoin(looked, trace, |begun|, app);
        if outcome.TimedOut? {
          return;
        }
        PutAfreshEarlier(trace, |begun|, |looked|, app, outcome.spec);
      }
      AnsweredOnceLookedUp(begun, trace, record, app, replicas, outcome.fromRecord);
    }

    /** Deploys the app alone, all it requires being settled. */
    method DeployItself(app: App, replicas: nat, wait: bool, ghost from: nat) returns (outcome: Outcome)
      requires Valid() && from <= |trace| && !Reachable(Needs(), app, app)
      requires LawfulFrom(Needs(), start, trace, from) && AllSettled(Needs(), trace, from, app)
      modifies this
      ensures Valid() && old(trace) <= trace
      ensures LawfulFrom(Needs(), start, trace, from)
      ensures TouchesJust(trace, |old(trace)|, app)
      ensures outcome.Deployed? ==> app in records && records[app].spec == outcome.spec
      ensures outcome.Deployed? ==> BuiltFor(outcome.spec, app, replicas)
      ensures outcome.Deployed? && !outcome.fromRecord ==> app in Stored() && Stored()[app] == outcome.spec
      ensures outcome.Deployed? && wait ==> Settled(trace, from, app)
      ensures !outcome.Unregistered? && Explained(outcome, Needs(), app, wait, records.Keys, trace, late)
      ensures outcome.Deployed? ==> AnsweredAsLookedUp(trace, |old(trace)|, app, replicas, outcome.fromRecord)
      ensures outcome.Deployed? && !outcome.fromRecord ==> PutAfresh(trace, |old(trace)|, app, outcome.spec)
    {
      hide LawfulFrom, AllSettled, Target, AnsweredAsLookedUp, PutAfresh;
      ghost var begun := trace;
      outcome := AnswerOrPlace(app, replicas, from);
      if outcome.Deployed? && wait {
        ghost var placed := trace;
        var problem := WaitRunning(app);
        LooksAreLawful(Needs(), start, placed, trace, from);
        LooksTouchNothing(placed, trace, |begun|, app);
        if problem.Some? {
          return problem.value;
        }
        assert Untouched(trace, |trace| - 1, app);
        AnsweredStays(placed, trace, |begun|, app, replicas, outcome.fromRecord);
        if !outcome.fromRecord {
          PutAfreshStays(placed, trace, |begun|, app, outcome.spec);
          PatchRecord(app);
        }
      }
    }

    /** Deploys all the model requires, waiting for each, then the model. */
    method Deploy(app: App, replicas: nat, wait: bool) returns (outcome: Outcome)
      requires Valid() && Acyclic(Needs())
      modifies this
      ensures Valid() && old(trace) <= trace
      ensures LawfulFrom(Needs(), start, trace, |old(trace)|)
      ensures TouchesOnly(Needs(), trace, |old(trace)|, app)
      ensures outcome.Deployed? ==> AllSettled(Needs(), trace, |old(trace)|, app)
      ensures outcome.Deployed? ==>
        app in registry && forall r :: r in registry[app] ==> Settled(trace, |old(trace)|, r.app)
      ensures outcome.Deployed? && wait ==> Settled(trace, |old(trace)|, app)
      ensures outcome.Deployed? ==> app in records && records[app].spec == outcome.spec
      ensures outcome.Deployed? ==> BuiltFor(outcome.spec, app, replicas)
      ensures outcome.Deployed? && !outcome.fromRecord ==> app in Stored() && Stored()[app] == outcome.spec
      ensures outcome.Deployed? ==> AnsweredAsLookedUp(trace, |old(trace)|, app, replicas, outcome.fromRecord)
      ensures outcome.Deployed? && !outcome.fromRecord ==> PutAfresh(trace, |old(trace)|, app, outcome.spec)
      ensures OthersKept(Needs(), old(Stored()), Stored(), app)
      ensures Explained(outcome, Needs(), app, wait, records.Keys, trace, late)
      decreases Below(Needs(), app)
    {
      hide LawfulFrom, AllSettled, Target, TouchesJust, TouchesOnly, Settled, Below;
      ghost var begun := trace;
      NothingYet(Needs(), start, trace, app);
      if app !in registry {
        return Unregistered;
      }
      var required := registry[app];
      var i := 0;
      while i < |required|
        invariant Valid() && i <= |required|
        invariant begun <= trace
        invariant LawfulFrom(Needs(), start, trace, |begun|)
        invariant TouchesOnly(Needs(), trace, |begun|, app)
        invariant TreesSettled(Needs(), trace, |begun|, required[..i])
      {
        ghost var before := trace;
        var next := required[i].app;
        RequiredIsBelow(Needs(), app, next);
        var deployed := Deploy(next, required[i].replicas, true);
        LawfulExtends(Needs(), start, before, trace, |begun|);
        TouchesExtend(Needs(), before, trace, |begun|, app, next);
        if !deployed.Deployed? {
          ExplainedAbove(deployed, Needs(), app, wait, next, records.Keys, trace, late);
          RunKeepsOthers(Needs(), start, begun, trace, app);
          return deployed;
        }
        TreesExtend(Needs(), before, trace, |begun|, required[..i], required[i]);
        assert required[..i + 1] == required[..i] + [required[i]];
        i := i + 1;
      }
      assert required[..i] == required;
      TreesCover(Needs(), trace, |begun|, required, app);
      ghost var ready := trace;
      outcome := DeployItself(app, replicas, wait, |begun|);
      OwnEventsKeepSettled(Needs(), ready, trace, |begun|, app);
      DirectlySettled(Needs(), trace, |begun|, required, app);
      OwnEventsTouch(Needs(), ready, trace, |begun|, app);
      RunKeepsOthers(Needs(), start, begun, trace, app);
    }
  }

  ghost predicate IsLookup(event: Event, app: App) {
    event.LookedUp? && event.app == app
  }

  ghost predicate NoLookups(trace: seq<Event>, from: nat) {
    forall i: nat :: from <= i < |trace| ==> !trace[i].LookedUp?
  }

  ghost predicate IsAddition(event: Event, spec: Spec) {
    event.Put? && event.change == Adds(spec)
  }

  /** The app was seen neither failed nor being deleted, and from then on PUT
      at most once, right after that and with this spec. */
  ghost predicate PutAfresh(trace: seq<Event>, from: nat, app: App, spec: Spec) {
    exists k: nat :: from <= k < |trace| &&
      trace[k].Saw? && trace[k].app == app &&
      trace[k].status != Some(DeployFailed) && trace[k].status != Some(Deleting) &&
      forall m: nat :: k < m < |trace| && trace[m].Touches(app) ==> m == k + 1 && IsAddition(trace[m], spec)
  }

  lemma AddedOrThere(before: seq<Event>, after: seq<Event>, from: nat, app: App, spec: Spec)
    requires from < |before| && before <= after && Startable(before[|before| - 1], app)
    requires after == before || (|after| == |before| + 1 && IsAddition(after[|before|], spec))
    ensures PutAfresh(after, from, app, spec)
  {
    assert after[|before| - 1] == before[|before| - 1];
  }

  lemma PutAfreshStays(before: seq<Event>, after: seq<Event>, from: nat, app: App, spec: Spec)
    requires PutAfresh(before, from, app, spec) && OnlyLooked(before, after)
    ensures PutAfresh(after, from, app, spec)
  {
    var k: nat :| from <= k < |before| &&
      before[k].Saw? && before[k].app == app &&
      before[k].status != Some(DeployFailed) && before[k].status != Some(Deleting) &&
      forall m: nat :: k < m < |before| && before[m].Touches(app) ==> m == k + 1 && IsAddition(before[m], spec);
    assert after[k] == before[k];
    forall m: nat | k < m < |after| && after[m].Touches(app) ensures m == k + 1 && IsAddition(after[m], spec) {
      if m < |before| {
        assert after[m] == before[m];
      }
    }
  }

  lemma PutAfreshEarlier(trace: seq<Event>, from: nat, since: nat, app: App, spec: Spec)
    requires PutAfresh(trace, since, app, spec) && from <= since
    ensures PutAfresh(trace, from, app, spec)
  {
  }

  lemma NoLookupsJoin(before: seq<Event>, after: seq<Event>, from: nat)
    requires before <= after && from <= |before| && NoLookups(before, from) && NoLookups(after, |before|)
    ensures NoLookups(after, from)
  {
    forall i: nat | from <= i < |after| ensures !after[i].LookedUp? {
      if i < |before| {
        assert after[i] == before[i];
      }
    }
  }

  lemma NothingLookedUp(trace: seq<Event>)
    ensures NoLookups(trace, |trace|)
  {
  }

  lemma TouchesJoin(before: seq<Event>, after: seq<Event>, from: nat, app: App)
    requires before <= after && from <= |before| && TouchesJust(before, from, app) && TouchesJust(after, |before|, app)
    ensures TouchesJust(after, from, app)
  {
    forall i: nat, y | from <= i < |after| && after[i].Touches(y) ensures y == app {
      if i < |before| {
        assert after[i] == before[i];
      }
    }
  }

  lemma LookupIsLawful(
    edges: Edges<App>, start: map<App, Spec>, before: seq<Event>, after: seq<Event>, from: nat, app: App)
    requires from <= |before| && LawfulFrom(edges, start, before, from) && AllSettled(edges, before, from, app)
    requires |after| == |before| + 1 && before <= after && IsLookup(after[|before|], app)
    ensures LawfulFrom(edges, start, after, from) && AllSettled(edges, after, from, app)
    ensures TouchesJust(after, |before|, app)
  {
    assert after == before + [after[|before|]];
    LawfulNext(edges, start, before, after[|before|], from);
    forall r | Reachable(edges, app, r) ensures Settled(after, from, r) {
      SettledStays(before, from, r, after);
    }
  }

  ghost predicate OnlyLooked(before: seq<Event>, after: seq<Event>) {
    before <= after && forall i: nat :: |before| <= i < |after| ==> after[i].Saw?
  }

  ghost predicate TouchesJust(trace: seq<Event>, from: nat, app: App) {
    forall i: nat, y :: from <= i < |trace| && trace[i].Touches(y) ==> y == app
  }

  lemma NothingTouched(trace: seq<Event>, app: App)
    ensures TouchesJust(trace, |trace|, app)
  {
  }

  lemma NothingYet(edges: Edges<App>, start: map<App, Spec>, trace: seq<Event>, app: App)
    ensures LawfulFrom(edges, start, trace, |trace|) && TouchesOnly(edges, trace, |trace|, app)
  {
  }

  lemma LooksAreLawful(edges: Edges<App>, start: map<App, Spec>, before: seq<Event>, after: seq<Event>, from: nat)
    requires from <= |before| && LawfulFrom(edges, start, before, from) && OnlyLooked(before, after)
    ensures LawfulFrom(edges, start, after, from)
  {
    forall i: nat | from <= i < |after| ensures Lawful(edges, start, after[..i], from, after[i]) {
      if i < |before| {
        assert after[..i] == before[..i] && after[i] == before[i];
      }
    }
  }

  lemma LooksTouchNothing(before: seq<Event>, after: seq<Event>, from: nat, app: App)
    requires from <= |before| && TouchesJust(before, from, app) && OnlyLooked(before, after)
    ensures TouchesJust(after, from, app)
  {
    forall i: nat, y | from <= i < |after| && after[i].Touches(y) ensures y == app {
      if i < |before| {
        assert after[i] == before[i];
      }
    }
  }

  /** One more event on a lawful run. */
  lemma LawfulNext(edges: Edges<App>, start: map<App, Spec>, before: seq<Event>, event: Event, from: nat)
    requires from <= |before| && LawfulFrom(edges, start, before, from)
    requires Lawful(edges, start, before, from, event)
    ensures LawfulFrom(edges, start, before + [event], from)
  {
    var after := before + [event];
    forall i: nat | from <= i < |after| ensures Lawful(edges, start, after[..i], from, after[i]) {
      if i < |before| {
        assert after[..i] == before[..i] && after[i] == before[i];
      } else {
        assert after[..i] == before;
      }
    }
  }

  lemma AdditionIsLawful(
    edges: Edges<App>, start: map<App, Spec>, before: seq<Event>, from: nat, spec: Spec, specs: AppList)
    requires from < |before| && Startable(before[|before| - 1], spec.name)
    requires LawfulFrom(edges, start, before, from) && AllSettled(edges, before, from, spec.name)
    requires var target := Target(start, before);
             ByName(specs) == target[spec.name := spec] && !(spec.name in target && target[spec.name] == spec)
    ensures LawfulFrom(edges, start, before + [Put(Adds(spec), specs)], from)
  {
    hide LawfulFrom, AllSettled, Target;
    LawfulNext(edges, start, before, Put(Adds(spec), specs), from);
  }

  /** Events of the app alone leave what it requires settled. */
  lemma OwnEventsKeepSettled(edges: Edges<App>, before: seq<Event>, after: seq<Event>, from: nat, app: App)
    requires AllSettled(edges, before, from, app) && before <= after
    requires TouchesJust(after, |before|, app) && !Reachable(edges, app, app)
    ensures AllSettled(edges, after, from, app)
  {
    forall r | Reachable(edges, app, r) ensures Settled(after, from, r) {
      SettledStays(before, from, r, after);
    }
  }

  /** The required models handled so far, and all they require. */
  ghost predicate TreesSettled(edges: Edges<App>, trace: seq<Event>, from: nat, required: seq<Required>) {
    forall r :: r in required ==> Settled(trace, from, r.app) && AllSettled(edges, trace, from, r.app)
  }

  /** A later deploy settles anew what it touches, and leaves the rest. */
  lemma StaysOrIsSettled(edges: Edges<App>, before: seq<Event>, after: seq<Event>, from: nat, next: App, y: App)
    requires from <= |before| && before <= after
    requires TouchesOnly(edges, after, |before|, next)
    requires Settled(after, |before|, next) && AllSettled(edges, after, |before|, next)
    requires Settled(before, from, y)
    ensures Settled(after, from, y)
  {
    if y == next || Reachable(edges, next, y) {
      SettledEarlier(after, from, |before|, y);
    } else {
      SettledStays(before, from, y, after);
    }
  }

  lemma TreesExtend(
    edges: Edges<App>, before: seq<Event>, after: seq<Event>, from: nat, required: seq<Required>, next: Required)
    requires from <= |before| && before <= after
    requires TreesSettled(edges, before, from, required)
    requires TouchesOnly(edges, after, |before|, next.app)
    requires Settled(after, |before|, next.app) && AllSettled(edges, after, |before|, next.app)
    ensures TreesSettled(edges, after, from, required + [next])
  {
    forall r | r in required + [next] ensures Settled(after, from, r.app) && AllSettled(edges, after, from, r.app) {
      if r in required {
        StaysOrIsSettled(edges, before, after, from, next.app, r.app);
        forall y | Reachable(edges, r.app, y) ensures Settled(after, from, y) {
          StaysOrIsSettled(edges, before, after, from, next.app, y);
        }
      } else {
        SettledEarlier(after, from, |before|, next.app);
        forall y | Reachable(edges, next.app, y) ensures Settled(after, from, y) {
          SettledEarlier(after, from, |before|, y);
        }
      }
    }
  }

  lemma TreesCover(edges: Edges<App>, trace: seq<Event>, from: nat, required: seq<Required>, app: App)
    requires Targets(edges, app) == set r | r in required :: r.app
    requires TreesSettled(edges, trace, from, required)
    ensures AllSettled(edges, trace, from, app)
  {
    forall y | Reachable(edges, app, y) ensures Settled(trace, from, y) {
      FirstStep(edges, app, y);
    }
  }

  lemma DirectlySettled(edges: Edges<App>, trace: seq<Event>, from: nat, required: seq<Required>, app: App)
    requires Targets(edges, app) == set r | r in required :: r.app
    requires AllSettled(edges, trace, from, app)
    ensures forall r :: r in required ==> Settled(trace, from, r.app)
  {
    forall r | r in required ensures Settled(trace, from, r.app) {
      EdgeReaches(edges, app, r.app);
    }
  }

  lemma TouchesExtend(
    edges: Edges<App>, before: seq<Event>, after: seq<Event>, from: nat, app: App, next: App)
    requires from <= |before| && before <= after
    requires TouchesOnly(edges, before, from, app) && TouchesOnly(edges, after, |before|, next)
    requires Reachable(edges, app, next)
    ensures TouchesOnly(edges, after, from, app)
  {
    forall i: nat, y | from <= i < |after| && after[i].Touches(y) ensures y == app || Reachable(edges, app, y) {
      if i < |before| {
        assert before[i] == after[i];
      } else if y != next {
        ReachableTransitive(edges, app, next, y);
      }
    }
  }

  lemma OwnEventsTouch(edges: Edges<App>, before: seq<Event>, after: seq<Event>, from: nat, app: App)
    requires from <= |before| && before <= after
    requires TouchesOnly(edges, before, from, app) && TouchesJust(after, |before|, app)
    ensures TouchesOnly(edges, after, from, app)
  {
    forall i: nat, y | from <= i < |after| && after[i].Touches(y) ensures y == app || Reachable(edges, app, y) {
      if i < |before| {
        assert before[i] == after[i];
      }
    }
  }
}
