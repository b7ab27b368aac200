/** k8s/seed/cli.py and k8s/seed/pipeline.py: what infra-config.yaml records,
    and what a pipeline's steps do to it, with a failure at any step. */
module ClusterConfig {
  import opened Common

  datatype Profile = Onprem | Aws

  datatype Step =
    | InstallPrereqs | TailscaleHostname | HeadServer | EnvSecrets | TerraformOutputs | K3sServer | Kubeconfig
    | LocalPath | PostgresCredentials | MinioCredentials | BootstrapSecrets | ControlPlaneDetails | NodeLabel
    | WorkerLabels | ArgoReady | JoinCluster | ComputeLabels

  /** Whether a ConditionalOperator acts under the profile. */
  predicate Applies(step: Step, profile: Profile) {
    match step
    case TerraformOutputs => profile == Aws
    case PostgresCredentials => profile == Onprem
    case MinioCredentials => profile == Onprem
    case _ => true
  }

  const HEAD_OPERATORS: seq<Step> := [
    InstallPrereqs, TailscaleHostname, HeadServer, EnvSecrets, TerraformOutputs, K3sServer, Kubeconfig, LocalPath,
    PostgresCredentials, MinioCredentials, BootstrapSecrets, ControlPlaneDetails, NodeLabel, WorkerLabels, ArgoReady]

  const WORKER_STEPS: seq<Step> := [InstallPrereqs, JoinCluster, NodeLabel, ComputeLabels]
  const ON_HEAD_STEPS: seq<Step> := [ComputeLabels]

  function HeadSteps(profile: Profile): seq<Step> {
    Filter(HEAD_OPERATORS, (step: Step) => Applies(step, profile))
  }

  datatype Head = Head(ip: string, profile: Profile, storage: string, done: seq<Step>)

  datatype Worker = Worker(ip: string, done: seq<Step>)

  datatype Config = Config(head: Option<Head>, workers: Dict<string, Worker>)
  {
    predicate OnHead(ip: string) {
      head.Some? && head.value.ip == ip
    }

    /** The role's pipeline: on the head's own host only the labels are set. */
    function WorkerSteps(ip: string): seq<Step> {
      if OnHead(ip) then ON_HEAD_STEPS else WORKER_STEPS
    }

    /** Every entry's `done` is how far its own pipeline came, and no two
        workers share a host. */
    ghost predicate Valid() {
      && workers.Valid()
      && (head.Some? ==> head.value.done <= HeadSteps(head.value.profile))
      && (forall alias :: alias in workers.at ==> workers.at[alias].done <= WorkerSteps(workers.at[alias].ip))
      && (forall a, b :: a in workers.at && b in workers.at && a != b ==> workers.at[a].ip != workers.at[b].ip)
    }
  }

  /** On the head's own host a worker is only labelled; on any other host it is
      installed, joins the cluster and is labelled, in this order. */
  lemma WorkerStepsMeaning(cfg: Config, ip: string)
    ensures cfg.head.Some? && cfg.head.value.ip == ip ==> cfg.WorkerSteps(ip) == [ComputeLabels]
    ensures cfg.head.None? || cfg.head.value.ip != ip ==>
      cfg.WorkerSteps(ip) == [InstallPrereqs, JoinCluster, NodeLabel, ComputeLabels]
  {
  }

  /** Where a step comes in seeding a head; None if it is a worker's. */
  ghost function Place(step: Step): Option<nat> {
    match step
    case InstallPrereqs => Some(0)
    case TailscaleHostname => Some(1)
    case HeadServer => Some(2)
    case EnvSecrets => Some(3)
    case TerraformOutputs => Some(4)
    case K3sServer => Some(5)
    case Kubeconfig => Some(6)
    case LocalPath => Some(7)
    case PostgresCredentials => Some(8)
    case MinioCredentials => Some(9)
    case BootstrapSecrets => Some(10)
    case ControlPlaneDetails => Some(11)
    case NodeLabel => Some(12)
    case WorkerLabels => Some(13)
    case ArgoReady => Some(14)
    case JoinCluster => None
    case ComputeLabels => None
  }

  /** Every head takes all the head's steps in this order, but that Terraform's
      outputs are for AWS only, and the credentials of Postgres and MinIO for
      on-prem only: the secrets come before the server that serves them. */
  lemma HeadStepsMeaning(profile: Profile, step: Step)
    ensures step in HeadSteps(profile) <==>
      Place(step).Some? && (step == TerraformOutputs ==> profile == Aws) &&
      (step == PostgresCredentials || step == MinioCredentials ==> profile == Onprem)
    ensures InPlace(HeadSteps(profile))
  {
    OperatorIffPlaced(step);
    HeadStepsHold(profile, step);
    FilteredInPlace(profile);
    hide InPlace, HeadSteps, HEAD_OPERATORS;
  }

  lemma OperatorIffPlaced(step: Step)
    ensures step in HEAD_OPERATORS <==> Place(step).Some?
  {
    OperatorsInPlace();
    if step in HEAD_OPERATORS {
      var i :| 0 <= i < |HEAD_OPERATORS| && HEAD_OPERATORS[i] == step;
    }
    hide HEAD_OPERATORS, Place;
    if Place(step).Some? {
      assert HEAD_OPERATORS[Place(step).value] in HEAD_OPERATORS;
    }
  }

  lemma HeadStepsHold(profile: Profile, step: Step)
    ensures step in HeadSteps(profile) <==> step in HEAD_OPERATORS && Applies(step, profile)
  {
    hide HEAD_OPERATORS, Applies, Filter;
  }

  ghost predicate InPlace(steps: seq<Step>) {
    forall i, j :: 0 <= i < j < |steps| ==>
      Place(steps[i]).Some? && Place(steps[j]).Some? && Place(steps[i]).value < Place(steps[j]).value
  }

  lemma OperatorsInPlace()
    ensures |HEAD_OPERATORS| == 15
    ensures forall i: nat :: i < 15 ==> Place(HEAD_OPERATORS[i]) == Some(i)
    ensures forall step :: Place(step).Some? ==> Place(step).value < 15 && HEAD_OPERATORS[Place(step).value] == step
  {
  }

  lemma FilteredInPlace(profile: Profile)
    ensures InPlace(HeadSteps(profile))
  {
    OperatorsInPlace();
    hide HEAD_OPERATORS, Place, Applies, Filter;
    var steps := HeadSteps(profile);
    var picks := FilterPicks(HEAD_OPERATORS, (step: Step) => Applies(step, profile));
    forall k | 0 <= k < |steps| ensures Place(steps[k]) == Some(picks[k]) {
      assert steps[k] == HEAD_OPERATORS[picks[k]];
    }
  }

  /** Which entry a pipeline belongs to: None is the head. */
  type Role = Option<string>

  predicate HasEntry(cfg: Config, role: Role) {
    if role.None? then cfg.head.Some? else role.value in cfg.workers.at
  }

  function Done(cfg: Config, role: Role): seq<Step>
    requires HasEntry(cfg, role)
  {
    if role.None? then cfg.head.value.done else cfg.workers.at[role.value].done
  }

  function Steps(cfg: Config, role: Role): seq<Step>
    requires HasEntry(cfg, role)
  {
    if role.None? then HeadSteps(cfg.head.value.profile) else cfg.WorkerSteps(cfg.workers.at[role.value].ip)
  }

  function WithDone(cfg: Config, role: Role, done: seq<Step>): Config
    requires HasEntry(cfg, role)
  {
    if role.None? then cfg.(head := Some(cfg.head.value.(done := done)))
    else cfg.(workers := cfg.workers.(at := cfg.workers.at[role.value := cfg.workers.at[role.value].(done := done)]))
  }

  lemma StepsDistinct(cfg: Config, role: Role)
    requires HasEntry(cfg, role)
    ensures Distinct(Steps(cfg, role))
  {
    if role.None? {
      FilterKeepsDistinct(HEAD_OPERATORS, (step: Step) => Applies(step, cfg.head.value.profile));
    }
  }

  /** Another `done` that is a prefix of the same pipeline keeps all else. */
  lemma WithDoneValid(cfg: Config, role: Role, done: seq<Step>)
    requires cfg.Valid() && HasEntry(cfg, role) && done <= Steps(cfg, role)
    ensures WithDone(cfg, role, done).Valid()
  {
    hide HeadSteps, Config.WorkerSteps;
    SameRoles(cfg, role, done);
  }

  lemma SameRoles(cfg: Config, role: Role, done: seq<Step>)
    requires HasEntry(cfg, role)
    ensures forall ip :: WithDone(cfg, role, done).WorkerSteps(ip) == cfg.WorkerSteps(ip)
  {
  }

  lemma WithDoneEntry(cfg: Config, role: Role, done: seq<Step>)
    requires HasEntry(cfg, role)
    ensures var after := WithDone(cfg, role, done);
      && HasEntry(after, role) && Done(after, role) == done && Steps(after, role) == Steps(cfg, role)
      && forall again :: WithDone(after, role, again) == WithDone(cfg, role, again)
  {
    hide HeadSteps;
    SameRoles(cfg, role, done);
    var after := WithDone(cfg, role, done);
    forall again ensures WithDone(after, role, again) == WithDone(cfg, role, again) {
      if role.Some? {
        assert after.workers.at[role.value := cfg.workers.at[role.value].(done := again)] ==
          cfg.workers.at[role.value := cfg.workers.at[role.value].(done := again)];
      }
    }
  }

  lemma WithOwnDone(cfg: Config, role: Role)
    requires HasEntry(cfg, role)
    ensures WithDone(cfg, role, Done(cfg, role)) == cfg
  {
    if role.Some? {
      assert cfg.workers.at[role.value := cfg.workers.at[role.value]] == cfg.workers.at;
    }
  }

  lemma DoneIsPrefix(cfg: Config, role: Role)
    requires cfg.Valid() && HasEntry(cfg, role)
    ensures Done(cfg, role) <= Steps(cfg, role)
  {
  }

  /** `list.remove` */
  function Removed(done: seq<Step>, step: Step): seq<Step> {
    if done == [] then []
    else if done[0] == step then done[1..]
    else [done[0]] + Removed(done[1..], step)
  }

  /** The first occurrence goes, all else stays. */
  lemma {:induction false} RemovedMeaning(done: seq<Step>, step: Step) returns (i: nat)
    ensures if step in done then
        i < |done| && done[i] == step && step !in done[..i] && Removed(done, step) == done[..i] + done[i + 1..]
      else Removed(done, step) == done
  {
    hide Removed;
    RemovedStep(done, step);
    i := 0;
    if done != [] && done[0] != step {
      var k := RemovedMeaning(done[1..], step);
      if step in done[1..] {
        i := k + 1;
        assert done[..i] == [done[0]] + done[1..][..k] && done[i + 1..] == done[1..][k + 1..];
      }
    }
  }

  lemma RemovedStep(done: seq<Step>, step: Step)
    ensures Removed(done, step) ==
      if done == [] then [] else if done[0] == step then done[1..] else [done[0]] + Removed(done[1..], step)
  {
  }

  lemma {:induction false} RemoveLast(done: seq<Step>, step: Step)
    requires Distinct(done + [step])
    ensures Removed(done + [step], step) == done
  {
    var whole := done + [step];
    if done == [] {
      assert whole[1..] == [];
    } else {
      assert whole[0] != step by {
        assert whole[0] != whole[|done|];
      }
      assert whole[1..] == done[1..] + [step];
      RemoveLast(done[1..], step);
    }
  }

  /** Completing step i of a pipeline, on top of a prefix that includes all
      the steps before it. */
  lemma SetupStep(steps: seq<Step>, done: seq<Step>, i: nat)
    requires Distinct(steps) && i < |steps| && steps[..i] <= done <= steps
    ensures var after := if steps[i] !in done then done + [steps[i]] else done;
            steps[..i + 1] <= after <= steps && done <= after
  {
    if |done| == i {
      assert done == steps[..i];
      assert steps[..i + 1] == steps[..i] + [steps[i]];
    } else {
      assert done[i] == steps[i];
    }
  }

  /** Undoing step i, when none after it is done. */
  lemma TeardownStep(steps: seq<Step>, done: seq<Step>, i: nat)
    requires Distinct(steps) && i < |steps| && done <= steps[..i + 1]
    ensures var after := if steps[i] in done then Removed(done, steps[i]) else done;
            after <= steps[..i] && after <= done
  {
    if |done| == i + 1 {
      assert done == steps[..i + 1] == steps[..i] + [steps[i]];
      RemoveLast(steps[..i], steps[i]);
    } else {
      assert done <= steps[..i];
    }
  }

  /******* The file and the pipelines *******/

  /** How many more steps and saves of a command come through before an
      operator raises or the command is stopped; None if it never is. */
  type Patience = Option<nat>

  predicate Lasts(patience: Patience, count: nat) {
    patience.None? || patience.value >= count
  }

  function Left(patience: Patience, count: nat): Patience
    requires Lasts(patience, count)
  {
    if patience.None? then None else Some(patience.value - count)
  }

  datatype Direction = Setup | Teardown

  class ConfigFile {
    var cfg: Config

    constructor (onDisk: Config)
      ensures cfg == onDisk
    {
      cfg := onDisk;
    }

    /** record_step */
    method RecordStep(role: Role, step: Step, direction: Direction)
      modifies this
      ensures !HasEntry(old(cfg), role) ==> cfg == old(cfg)
      ensures HasEntry(old(cfg), role) ==>
        var done := Done(old(cfg), role);
        cfg == WithDone(old(cfg), role,
          if direction == Setup && step !in done then done + [step]
          else if direction == Teardown && step in done then Removed(done, step)
          else done)
    {
      if !HasEntry(cfg, role) {
        return;
      }
      var done := Done(cfg, role);
      if direction == Setup && step !in done {
        done := done + [step];
      } else if direction == Teardown && step in done {
        done := Removed(done, step);
      }
      cfg := WithDone(cfg, role, done);
    }

    /** Pipeline.setup: whatever was done before, and wherever it stops, the
        steps that completed are recorded, and they are a prefix. */
    method RunSetup(role: Role, patience: Patience) returns (ok: bool, left: Patience, ghost done: seq<Step>)
      requires cfg.Valid() && HasEntry(cfg, role)
      modifies this
      ensures cfg.Valid() && cfg == WithDone(old(cfg), role, done)
      ensures Done(old(cfg), role) <= done <= Steps(old(cfg), role)
      ensures ok ==> done == Steps(old(cfg), role)
      ensures ok <==> Lasts(patience, |Steps(old(cfg), role)|)
      ensures left == if ok then Left(patience, |Steps(old(cfg), role)|) else Some(0)
    {
      hide Steps, HeadSteps, HasEntry, Done, WithDone, Config.Valid, Config.WorkerSteps;
      var steps := Steps(cfg, role);
      StepsDistinct(cfg, role);
      DoneIsPrefix(cfg, role);
      WithOwnDone(cfg, role);
      left, done := patience, Done(cfg, role);
      var i := 0;
      while i < |steps|
        invariant 0 <= i <= |steps|
        invariant steps[..i] <= done <= steps && Done(old(cfg), role) <= done
        invariant cfg == WithDone(old(cfg), role, done)
        invariant Lasts(patience, i) && left == Left(patience, i)
      {
        if left == Some(0) {
          WithDoneValid(old(cfg), role, done);
          return false, left, done;
        }
        left := Left(left, 1);
        WithDoneEntry(old(cfg), role, done);
        SetupStep(steps, done, i);
        RecordStep(role, steps[i], Setup);
        done := if steps[i] !in done then done + [steps[i]] else done;
        i := i + 1;
      }
      assert steps[..i] == steps;
      WithDoneValid(old(cfg), role, done);
      ok := true;
    }

    /** Pipeline.teardown: undoes from the end, so what is left is a prefix. */
    method RunTeardown(role: Role, patience: Patience) returns (ok: bool, left: Patience, ghost done: seq<Step>)
      requires cfg.Valid() && HasEntry(cfg, role)
      modifies this
      ensures cfg.Valid() && cfg == WithDone(old(cfg), role, done)
      ensures done <= Done(old(cfg), role)
      ensures ok ==> done == []
      ensures ok <==> Lasts(patience, |Steps(old(cfg), role)|)
      ensures left == if ok then Left(patience, |Steps(old(cfg), role)|) else Some(0)
    {
      hide Steps, HeadSteps, HasEntry, Done, WithDone, Config.Valid, Config.WorkerSteps;
      var steps := Steps(cfg, role);
      StepsDistinct(cfg, role);
      DoneIsPrefix(cfg, role);
      WithOwnDone(cfg, role);
      left, done := patience, Done(cfg, role);
      assert steps[..|steps|] == steps;
      var i := |steps|;
      while i > 0
        invariant 0 <= i <= |steps|
        invariant done <= steps[..i] && done <= Done(old(cfg), role)
        invariant cfg == WithDone(old(cfg), role, done)
        invariant Lasts(patience, |steps| - i) && left == Left(patience, |steps| - i)
      {
        if left == Some(0) {
          PrefixOfWhole(steps, done, i);
          WithDoneValid(old(cfg), role, done);
          return false, left, done;
        }
        left := Left(left, 1);
        WithDoneEntry(old(cfg), role, done);
        i := i - 1;
        TeardownStep(steps, done, i);
        RecordStep(role, steps[i], Teardown);
        done := if steps[i] in done then Removed(done, steps[i]) else done;
      }
      WithDoneValid(old(cfg), role, done);
      ok := true;
    }
  }

  lemma PrefixOfWhole(steps: seq<Step>, done: seq<Step>, i: nat)
    requires i <= |steps| && done <= steps[..i]
    ensures done <= steps
  {
  }
}
