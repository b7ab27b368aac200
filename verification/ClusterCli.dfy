/** k8s/seed/cli.py, the commands: each keeps the recorded cluster sound,
    wherever it fails, and each says exactly what it leaves recorded. */
module ClusterCli {
  import opened Common
  import opened ClusterConfig

  datatype Outcome = Refused | Completed | Failed

  /******* Validation *******/

  predicate WorkerAt(cfg: Config, ip: string, except: Option<string>) {
    exists alias :: alias in cfg.workers.at && Some(alias) != except && cfg.workers.at[alias].ip == ip
  }

  /** validated_head: the entry `add head` records; None where it exits. */
  function ValidatedHead(cfg: Config, ip: string, profile: Profile, storage: string): Option<Head> {
    if cfg.head.Some? then
      var current := cfg.head.value;
      if current.profile != profile || current.ip != ip || current.storage != storage then None else Some(current)
    else if WorkerAt(cfg, ip, None) then None
    else Some(Head(ip, profile, storage, []))
  }

  /** validated_worker: the entry `add worker` records; None where it exits. */
  function ValidatedWorker(cfg: Config, alias: string, ip: string): Option<Worker> {
    var current := if alias in cfg.workers.at then Some(cfg.workers.at[alias]) else None;
    if current.Some? && current.value.ip != ip then None
    else if WorkerAt(cfg, ip, Some(alias)) then None
    else if current.Some? then current
    else Some(Worker(ip, []))
  }

  /** Adding the head changes no worker's pipeline: no worker is on its host. */
  lemma HeadEntryValid(cfg: Config, ip: string, profile: Profile, storage: string)
    requires cfg.Valid() && ValidatedHead(cfg, ip, profile, storage).Some?
    ensures cfg.(head := ValidatedHead(cfg, ip, profile, storage)).Valid()
  {
    hide HeadSteps;
    var after := cfg.(head := ValidatedHead(cfg, ip, profile, storage));
    forall alias | alias in cfg.workers.at
      ensures after.WorkerSteps(cfg.workers.at[alias].ip) == cfg.WorkerSteps(cfg.workers.at[alias].ip)
    {
    }
  }

  lemma WorkerEntryValid(cfg: Config, alias: string, ip: string)
    requires cfg.Valid() && ValidatedWorker(cfg, alias, ip).Some?
    ensures cfg.(workers := cfg.workers.Put(alias, ValidatedWorker(cfg, alias, ip).value)).Valid()
  {
    hide HeadSteps;
    var entry := ValidatedWorker(cfg, alias, ip).value;
    var after := cfg.(workers := cfg.workers.Put(alias, entry));
    assert forall at :: after.WorkerSteps(at) == cfg.WorkerSteps(at);
    forall a, b | a in after.workers.at && b in after.workers.at && a != b
      ensures after.workers.at[a].ip != after.workers.at[b].ip
    {
      assert entry.ip == ip;
    }
  }

  /******* Forgetting an entry *******/

  function IsNot(alias: string): string -> bool {
    (key: string) => key != alias
  }

  function WithoutWorker(cfg: Config, alias: string): Config
    requires cfg.workers.Valid()
  {
    cfg.(workers := Dict(Filter(cfg.workers.keys, IsNot(alias)), cfg.workers.at - {alias}))
  }

  /** Exactly this worker's entry is gone, the others keep their order. */
  lemma WithoutWorkerMeaning(cfg: Config, alias: string) returns (i: nat)
    requires cfg.workers.Valid() && alias in cfg.workers.at
    ensures var after, keys := WithoutWorker(cfg, alias), cfg.workers.keys;
      && after.head == cfg.head && after.workers.at == cfg.workers.at - {alias}
      && i < |keys| && keys[i] == alias && after.workers.keys == keys[..i] + keys[i + 1..]
  {
    hide Filter;
    assert alias in cfg.workers.keys;
    i := SplitAt(cfg.workers.keys, alias);
    FilterOut(cfg.workers.keys[..i], alias, cfg.workers.keys[i + 1..], IsNot(alias));
  }

  lemma SplitAt(keys: seq<string>, alias: string) returns (i: nat)
    requires Distinct(keys) && alias in keys
    ensures i < |keys| && keys[i] == alias && keys == keys[..i] + ([alias] + keys[i + 1..])
    ensures alias !in keys[..i] && alias !in keys[i + 1..]
  {
    i :| i < |keys| && keys[i] == alias;
    assert forall k :: i < k < |keys| ==> keys[i + 1..][k - i - 1] == keys[k];
  }

  lemma FilterOut(before: seq<string>, x: string, after: seq<string>, others: string -> bool)
    requires !others(x) && (forall y :: y in before ==> others(y)) && forall y :: y in after ==> others(y)
    ensures Filter(before + ([x] + after), others) == before + after
  {
    hide Filter;
    FilterConcat(before, [x] + after, others);
    FilterAll(before, others);
    FilterAll(after, others);
    FilterStep([x] + after, others);
    assert ([x] + after)[1..] == after;
  }

  lemma WithoutWorkerValid(cfg: Config, alias: string)
    requires cfg.Valid()
    ensures WithoutWorker(cfg, alias).Valid()
  {
    hide HeadSteps;
    FilterKeepsDistinct(cfg.workers.keys, IsNot(alias));
    assert forall ip :: WithoutWorker(cfg, alias).WorkerSteps(ip) == cfg.WorkerSteps(ip);
  }

  method ForgetWorker(file: ConfigFile, alias: string)
    requires file.cfg.Valid()
    modifies file
    ensures file.cfg.Valid() && file.cfg == WithoutWorker(old(file.cfg), alias)
  {
    WithoutWorkerValid(file.cfg, alias);
    file.cfg := WithoutWorker(file.cfg, alias);
  }

  /** The head is only ever forgotten once no workers remain. */
  method ForgetHead(file: ConfigFile)
    requires file.cfg.Valid() && file.cfg.workers.at == map[]
    modifies file
    ensures file.cfg.Valid() && file.cfg == old(file.cfg).(head := None)
  {
    file.cfg := file.cfg.(head := None);
  }

  /******* add: the entry is saved, then the steps are run *******/

  method AddHead(file: ConfigFile, ip: string, profile: Profile, storage: string, patience: Patience)
    returns (outcome: Outcome)
    requires file.cfg.Valid()
    modifies file
    ensures file.cfg.Valid()
    ensures outcome.Refused? <==>
      if old(file.cfg).head.Some? then
        var head := old(file.cfg).head.value;
        head.ip != ip || head.profile != profile || head.storage != storage
      else exists alias :: alias in old(file.cfg).workers.at && old(file.cfg).workers.at[alias].ip == ip
    ensures outcome.Refused? || patience == Some(0) ==> file.cfg == old(file.cfg)
    ensures !outcome.Refused? && patience != Some(0) ==>
      file.cfg.head.Some? &&
      var done := file.cfg.head.value.done;
      && file.cfg == old(file.cfg).(head := Some(Head(ip, profile, storage, done)))
      && (old(file.cfg).head.Some? ==> old(file.cfg).head.value.done <= done)
      && (outcome.Completed? ==> done == HeadSteps(profile))
    ensures !outcome.Refused? ==> (outcome.Completed? <==> Lasts(patience, 1 + |HeadSteps(profile)|))
  {
    hide Config.Valid, HeadSteps;
    var entry := ValidatedHead(file.cfg, ip, profile, storage);
    if entry.None? {
      return Refused;
    }
    if patience == Some(0) {
      return Failed;
    }
    HeadEntryValid(file.cfg, ip, profile, storage);
    file.cfg := file.cfg.(head := entry);
    var ok, left, done := file.RunSetup(None, Left(patience, 1));
    outcome := if ok then Completed else Failed;
  }

  method AddWorker(file: ConfigFile, alias: string, ip: string, patience: Patience) returns (outcome: Outcome)
    requires file.cfg.Valid()
    modifies file
    ensures file.cfg.Valid()
    ensures outcome.Refused? <==>
      (alias in old(file.cfg).workers.at && old(file.cfg).workers.at[alias].ip != ip) ||
      exists other :: other in old(file.cfg).workers.at && other != alias && old(file.cfg).workers.at[other].ip == ip
    ensures outcome.Refused? || patience == Some(0) ==> file.cfg == old(file.cfg)
    ensures !outcome.Refused? && patience != Some(0) ==>
      alias in file.cfg.workers.at &&
      var done := file.cfg.workers.at[alias].done;
      && file.cfg == old(file.cfg).(workers := old(file.cfg).workers.Put(alias, Worker(ip, done)))
      && (alias in old(file.cfg).workers.at ==> old(file.cfg).workers.at[alias].done <= done)
      && (outcome.Completed? ==> done == old(file.cfg).WorkerSteps(ip))
    ensures !outcome.Refused? ==> (outcome.Completed? <==> Lasts(patience, 1 + |old(file.cfg).WorkerSteps(ip)|))
  {
    hide Config.Valid, HeadSteps;
    var entry := ValidatedWorker(file.cfg, alias, ip);
    if entry.None? {
      return Refused;
    }
    if patience == Some(0) {
      return Failed;
    }
    WorkerEntryValid(file.cfg, alias, ip);
    WorkersValid(file.cfg);
    file.cfg := file.cfg.(workers := file.cfg.workers.Put(alias, entry.value));
    var ok, left, done := file.RunSetup(Some(alias), Left(patience, 1));
    outcome := if ok then Completed else Failed;
  }

  lemma WorkersValid(cfg: Config)
    requires cfg.Valid()
    ensures cfg.workers.Valid()
  {
  }

  /******* del *******/

  /** The saves of a `del worker`: one per step undone, and the last. */
  function DelWorkerSaves(cfg: Config, alias: string): nat
    requires alias in cfg.workers.at
  {
    |Steps(cfg, Some(alias))| + 1
  }

  method DelWorker(file: ConfigFile, alias: string, patience: Patience) returns (outcome: Outcome, left: Patience)
    requires file.cfg.Valid()
    modifies file
    ensures file.cfg.Valid() && old(file.cfg).workers.Valid()
    ensures outcome.Refused? <==> alias !in old(file.cfg).workers.at
    ensures outcome.Refused? ==> file.cfg == old(file.cfg)
    ensures outcome.Completed? ==> file.cfg == WithoutWorker(old(file.cfg), alias)
    ensures outcome.Failed? ==>
      exists done ::
        done <= old(file.cfg).workers.at[alias].done && file.cfg == WithDone(old(file.cfg), Some(alias), done)
    ensures outcome.Completed? ==>
      Lasts(patience, DelWorkerSaves(old(file.cfg), alias)) &&
      left == Left(patience, DelWorkerSaves(old(file.cfg), alias))
    ensures outcome.Failed? ==> !Lasts(patience, DelWorkerSaves(old(file.cfg), alias))
  {
    hide Config.Valid, HeadSteps, Steps, WithDone, WithoutWorker;
    WorkersValid(file.cfg);
    if alias !in file.cfg.workers.at {
      return Refused, patience;
    }
    ghost var done;
    var ok;
    ok, left, done := file.RunTeardown(Some(alias), patience);
    if !ok || left == Some(0) {
      return Failed, left;
    }
    left := Left(left, 1);
    WithoutDone(old(file.cfg), alias, done);
    ForgetWorker(file, alias);
    outcome := Completed;
  }

  /** Forgetting a worker forgets how far it came. */
  lemma WithoutDone(cfg: Config, alias: string, done: seq<Step>)
    requires cfg.workers.Valid() && alias in cfg.workers.at
    ensures WithDone(cfg, Some(alias), done).workers.Valid()
    ensures WithoutWorker(WithDone(cfg, Some(alias), done), alias) == WithoutWorker(cfg, alias)
  {
    assert WithDone(cfg, Some(alias), done).workers.at - {alias} == cfg.workers.at - {alias};
  }

  function DelHeadSaves(cfg: Config): nat
    requires cfg.head.Some?
  {
    |Steps(cfg, None)| + 1
  }

  /** `destroys` says whether terraform destroys the AWS stack. */
  method DelHead(file: ConfigFile, patience: Patience, destroys: bool) returns (outcome: Outcome)
    requires file.cfg.Valid()
    modifies file
    ensures file.cfg.Valid()
    ensures outcome.Refused? <==> old(file.cfg).head.None? || old(file.cfg).workers.at != map[]
    ensures outcome.Refused? ==> file.cfg == old(file.cfg)
    ensures outcome.Completed? ==> file.cfg == old(file.cfg).(head := None)
    ensures outcome.Failed? ==>
      exists done :: done <= old(file.cfg).head.value.done && file.cfg == WithDone(old(file.cfg), None, done)
    ensures !outcome.Refused? ==>
      (outcome.Completed? <==>
        Lasts(patience, DelHeadSaves(old(file.cfg))) && (destroys || old(file.cfg).head.value.profile == Onprem))
  {
    hide Config.Valid, HeadSteps;
    if file.cfg.head.None? || file.cfg.workers.at != map[] {
      return Refused;
    }
    var ok, left, done := file.RunTeardown(None, patience);
    if !ok || (file.cfg.head.value.profile == Aws && !destroys) || left == Some(0) {
      return Failed;
    }
    ForgetHead(file);
    outcome := Completed;
  }

  lemma WithoutFirst(cfg: Config)
    requires cfg.workers.Valid() && cfg.workers.keys != []
    ensures WithoutWorker(cfg, cfg.workers.keys[0]).workers.keys == cfg.workers.keys[1..]
  {
    var first, rest := cfg.workers.keys[0], cfg.workers.keys[1..];
    var others := IsNot(first);
    assert cfg.workers.keys == [first] + rest;
    assert forall key :: key in rest ==> others(key);
    FilterAll(rest, others);
  }

  lemma NoKeysNoWorkers(cfg: Config)
    requires cfg.workers.Valid()
    ensures cfg.workers.keys == [] <==> cfg.workers.at == map[]
  {
    if cfg.workers.keys == [] {
      assert cfg.workers.at.Keys == {};
    } else {
      assert cfg.workers.keys[0] in cfg.workers.keys;
    }
  }

  /** Only entries of before are left, no further on than they were. */
  ghost predicate Shrunk(before: Config, now: Config) {
    && HeadShrunk(before.head, now.head)
    && WorkersWithin(before, now)
    && forall alias :: alias in now.workers.at && alias in before.workers.at ==>
         now.workers.at[alias].done <= before.workers.at[alias].done
  }

  ghost predicate HeadShrunk(before: Option<Head>, now: Option<Head>) {
    now.Some? ==>
      before.Some? && now.value == before.value.(done := now.value.done) && now.value.done <= before.value.done
  }

  /** Every worker is an old one, at its old host. */
  ghost predicate WorkersWithin(before: Config, now: Config) {
    forall alias :: alias in now.workers.at ==>
      alias in before.workers.at && now.workers.at[alias].ip == before.workers.at[alias].ip
  }

  lemma WorkerShrinks(before: Config, now: Config, alias: string, after: Config)
    requires Shrunk(before, now) && alias in now.workers.at && now.workers.Valid()
    requires after == WithoutWorker(now, alias) ||
      exists done :: done <= now.workers.at[alias].done && after == WithDone(now, Some(alias), done)
    ensures Shrunk(before, after)
  {
  }

  function DelWorkersSaves(cfg: Config, aliases: seq<string>): nat
    requires forall alias :: alias in aliases ==> alias in cfg.workers.at
  {
    if aliases == [] then 0
    else DelWorkersSaves(cfg, aliases[..|aliases| - 1]) + DelWorkerSaves(cfg, aliases[|aliases| - 1])
  }

  lemma NoSaves(cfg: Config)
    ensures DelWorkersSaves(cfg, []) == 0
  {
  }

  /** What is torn down first does not change what the others take. */
  lemma SavesNext(cfg: Config, now: Config, aliases: seq<string>, i: nat)
    requires forall alias :: alias in aliases ==> alias in cfg.workers.at
    requires i < |aliases| && aliases[i] in now.workers.at && now.head == cfg.head && Shrunk(cfg, now)
    ensures DelWorkersSaves(cfg, aliases[..i + 1]) ==
            DelWorkersSaves(cfg, aliases[..i]) + DelWorkerSaves(now, aliases[i])
  {
    hide HeadSteps;
    assert aliases[..i + 1][..i] == aliases[..i];
  }

  lemma {:induction false} SavesGrow(cfg: Config, aliases: seq<string>, i: nat)
    requires forall alias :: alias in aliases ==> alias in cfg.workers.at
    requires i <= |aliases|
    ensures DelWorkersSaves(cfg, aliases[..i]) <= DelWorkersSaves(cfg, aliases)
  {
    if i == |aliases| {
      assert aliases[..i] == aliases;
    } else {
      SavesGrow(cfg, aliases[..|aliases| - 1], i);
      assert aliases[..|aliases| - 1][..i] == aliases[..i];
    }
  }

  /** Tears the workers down one after the other, forgetting each. */
  method TearDownWorkers(file: ConfigFile, patience: Patience) returns (ok: bool, left: Patience)
    requires file.cfg.Valid()
    modifies file
    ensures file.cfg.Valid() && file.cfg.head == old(file.cfg).head && Shrunk(old(file.cfg), file.cfg)
    ensures ok ==> file.cfg.workers.at == map[] && file.cfg.workers.keys == []
    ensures old(file.cfg).workers.Valid()
    ensures var saves := DelWorkersSaves(old(file.cfg), old(file.cfg).workers.keys);
            if ok then Lasts(patience, saves) && left == Left(patience, saves) else !Lasts(patience, saves)
  {
    hide Config.Valid, HeadSteps, WithoutWorker, Shrunk, DelWorkersSaves, DelWorkerSaves;
    NothingShrunk(file.cfg);
    left := patience;
    var aliases := file.cfg.workers.keys;
    WorkersValid(file.cfg);
    NoSaves(file.cfg);
    assert aliases[..0] == [];
    var i := 0;
    while i < |aliases|
      invariant 0 <= i <= |aliases| && file.cfg.Valid()
      invariant file.cfg.head == old(file.cfg).head && file.cfg.workers.keys == aliases[i..]
      invariant Shrunk(old(file.cfg), file.cfg)
      invariant Lasts(patience, DelWorkersSaves(old(file.cfg), aliases[..i]))
      invariant left == Left(patience, DelWorkersSaves(old(file.cfg), aliases[..i]))
    {
      WorkersValid(file.cfg);
      WithoutFirst(file.cfg);
      assert aliases[i] in file.cfg.workers.keys && aliases[i..][1..] == aliases[i + 1..];
      KeepsHead(file.cfg, aliases[i]);
      ghost var before := file.cfg;
      var outcome;
      outcome, left := DelWorker(file, aliases[i], left);
      WorkerShrinks(old(file.cfg), before, aliases[i], file.cfg);
      SavesNext(old(file.cfg), before, aliases, i);
      if !outcome.Completed? {
        SavesGrow(old(file.cfg), aliases, i + 1);
        return false, left;
      }
      i := i + 1;
    }
    assert aliases[..i] == aliases;
    WorkersValid(file.cfg);
    NoKeysNoWorkers(file.cfg);
    ok := true;
  }

  lemma NothingShrunk(cfg: Config)
    ensures Shrunk(cfg, cfg)
  {
  }

  lemma KeepsHead(cfg: Config, alias: string)
    requires cfg.workers.Valid()
    ensures WithoutWorker(cfg, alias).head == cfg.head
  {
  }

  /** del --all: every worker, then the head. */
  method DelAll(file: ConfigFile, patience: Patience, destroys: bool) returns (outcome: Outcome)
    requires file.cfg.Valid()
    modifies file
    ensures file.cfg.Valid()
    ensures outcome.Refused? <==> old(file.cfg).head.None? && old(file.cfg).workers.at == map[]
    ensures outcome.Refused? ==> file.cfg == old(file.cfg)
    ensures outcome.Completed? ==> file.cfg.head == None && file.cfg.workers.at == map[]
    ensures file.cfg.workers.at != map[] ==> file.cfg.head == old(file.cfg).head
    ensures Shrunk(old(file.cfg), file.cfg)
    ensures patience == None && destroys ==> !outcome.Failed?
  {
    hide Config.Valid, HeadSteps, WithoutWorker;
    NothingShrunk(file.cfg);
    var hasHead := file.cfg.head.Some?;
    if !hasHead && file.cfg.workers.at == map[] {
      return Refused;
    }
    var ok, left := TearDownWorkers(file, patience);
    if !ok {
      return Failed;
    }
    if hasHead {
      outcome := DelHead(file, left, destroys);
    } else {
      outcome := Completed;
    }
  }

  /******* restart *******/

  /** The workers re-added so far, each at its old host and fully set up. */
  ghost predicate Restored(cfg: Config, now: Config, aliases: seq<string>) {
    && now.workers.Valid() && now.workers.keys == aliases
    && forall alias :: alias in aliases ==>
         && alias in cfg.workers.at
         && now.workers.at[alias] == Worker(cfg.workers.at[alias].ip, cfg.WorkerSteps(cfg.workers.at[alias].ip))
  }

  ghost predicate SameHead(cfg: Config, now: Config) {
    if cfg.head.None? then now.head.None?
    else
      now.head.Some? && now.head.value.ip == cfg.head.value.ip && now.head.value.profile == cfg.head.value.profile &&
      now.head.value.storage == cfg.head.value.storage
  }

  lemma NextWorkerValid(cfg: Config, now: Config, aliases: seq<string>, i: nat)
    requires cfg.Valid() && now.Valid() && SameHead(cfg, now)
    requires aliases == cfg.workers.keys && i < |aliases| && Restored(cfg, now, aliases[..i])
    ensures aliases[i] in cfg.workers.at && aliases[i] !in now.workers.at
    ensures var entry := Worker(cfg.workers.at[aliases[i]].ip, []);
            now.(workers := now.workers.Put(aliases[i], entry)).Valid()
  {
    hide HeadSteps;
    var alias := aliases[i];
    var ip := cfg.workers.at[alias].ip;
    assert alias in cfg.workers.keys && alias !in aliases[..i];
    forall other | other in now.workers.at ensures now.workers.at[other].ip != ip {
      assert other in now.workers.keys && other in aliases[..i] && other != alias;
    }
    assert ValidatedWorker(now, alias, ip) == Some(Worker(ip, []));
    WorkerEntryValid(now, alias, ip);
  }

  lemma RestoredMore(cfg: Config, before: Config, now: Config, aliases: seq<string>, i: nat)
    requires cfg.workers.Valid() && aliases == cfg.workers.keys && i < |aliases| && aliases[i] in cfg.workers.at
    requires Restored(cfg, before, aliases[..i]) && SameHead(cfg, before)
    requires var ip := cfg.workers.at[aliases[i]].ip;
      now == before.(workers := before.workers.Put(aliases[i], Worker(ip, before.WorkerSteps(ip))))
    ensures Restored(cfg, now, aliases[..i + 1]) && SameHead(cfg, now) && now.head == before.head
  {
    assert aliases[..i + 1] == aliases[..i] + [aliases[i]];
    assert aliases[i] !in aliases[..i];
  }

  method RestoreWorkers(
    file: ConfigFile, ghost cfg: Config, aliases: seq<string>, hosts: map<string, string>, patience: Patience)
    returns (ok: bool, left: Patience)
    requires cfg.Valid() && file.cfg.Valid() && SameHead(cfg, file.cfg) && file.cfg.workers.keys == []
    requires aliases == cfg.workers.keys && hosts == map alias | alias in cfg.workers.at :: cfg.workers.at[alias].ip
    modifies file
    ensures file.cfg.Valid() && file.cfg.head == old(file.cfg).head && WorkersWithin(cfg, file.cfg)
    ensures ok ==> Restored(cfg, file.cfg, aliases)
    ensures patience == None ==> ok
  {
    hide Config.Valid, HeadSteps, Restored, SameHead;
    left := patience;
    NothingRestored(cfg, file.cfg, aliases);
    var i := 0;
    while i < |aliases|
      invariant 0 <= i <= |aliases| && file.cfg.Valid()
      invariant Restored(cfg, file.cfg, aliases[..i]) && SameHead(cfg, file.cfg) && file.cfg.head == old(file.cfg).head
      invariant patience == None ==> left == None
    {
      ghost var before := file.cfg;
      var alias := aliases[i];
      if left == Some(0) {
        RestoredWithin(cfg, before, aliases[..i]);
        return false, left;
      }
      left := Left(left, 1);
      NextWorkerValid(cfg, file.cfg, aliases, i);
      WorkersValid(file.cfg);
      WorkersValid(cfg);
      file.cfg := file.cfg.(workers := file.cfg.workers.Put(alias, Worker(hosts[alias], [])));
      ghost var done;
      ok, left, done := file.RunSetup(Some(alias), left);
      if !ok {
        RestoredWithin(cfg, before, aliases[..i]);
        AddedWithin(cfg, before, alias, file.cfg, done);
        return;
      }
      ghost var restored := Worker(hosts[alias], before.WorkerSteps(hosts[alias]));
      assert file.cfg == before.(workers := before.workers.Put(alias, restored));
      RestoredMore(cfg, before, file.cfg, aliases, i);
      i := i + 1;
    }
    assert aliases[..i] == aliases;
    RestoredWithin(cfg, file.cfg, aliases);
    ok := true;
  }

  lemma RestoredWithin(cfg: Config, now: Config, aliases: seq<string>)
    requires Restored(cfg, now, aliases)
    ensures WorkersWithin(cfg, now)
  {
    assert forall alias :: alias in now.workers.at ==> alias in now.workers.keys;
  }

  lemma AddedWithin(cfg: Config, before: Config, alias: string, now: Config, done: seq<Step>)
    requires WorkersWithin(cfg, before) && before.workers.Valid() && alias in cfg.workers.at
    requires now == WithDone(
      before.(workers := before.workers.Put(alias, Worker(cfg.workers.at[alias].ip, []))), Some(alias), done)
    ensures WorkersWithin(cfg, now)
  {
  }

  lemma NothingRestored(cfg: Config, now: Config, aliases: seq<string>)
    requires now.Valid() && now.workers.keys == []
    ensures Restored(cfg, now, aliases[..0])
  {
    hide HeadSteps;
  }

  /** The saves a restart makes until the head is forgotten. */
  function SavesToHeadForgotten(cfg: Config): nat
    requires cfg.workers.Valid() && cfg.head.Some?
  {
    DelWorkersSaves(cfg, cfg.workers.keys) + DelHeadSaves(cfg)
  }

  /** Tears everything down, workers first, then adds it back, head first. A
      restart that completes restores the same cluster, every step done. One
      that fails loses the head exactly when it is stopped between forgetting
      the head's entry and adding it again; else the entry is still there and
      shows how far it came. */
  method Restart(file: ConfigFile, patience: Patience) returns (outcome: Outcome)
    requires file.cfg.Valid()
    modifies file
    ensures file.cfg.Valid()
    ensures outcome.Refused? <==> old(file.cfg).head.None? && old(file.cfg).workers.at == map[]
    ensures outcome.Refused? ==> file.cfg == old(file.cfg)
    ensures old(file.cfg).workers.Valid() && WorkersWithin(old(file.cfg), file.cfg)
    ensures if old(file.cfg).head.Some? && patience == Some(SavesToHeadForgotten(old(file.cfg)))
            then outcome.Failed? && file.cfg.head.None? && file.cfg.workers.at == map[]
            else SameHead(old(file.cfg), file.cfg)
    ensures outcome.Completed? ==> Restored(old(file.cfg), file.cfg, old(file.cfg).workers.keys)
    ensures outcome.Completed? && file.cfg.head.Some? ==>
      file.cfg.head.value.done == HeadSteps(file.cfg.head.value.profile)
    ensures patience == None ==> !outcome.Failed?
  {
    hide Config.Valid, HeadSteps, Restored, DelWorkersSaves;
    ghost var cfg := file.cfg;
    WorkersValid(cfg);
    if file.cfg.head.None? && file.cfg.workers.at == map[] {
      return Refused;
    }
    var aliases := file.cfg.workers.keys;
    var hosts := map alias | alias in file.cfg.workers.at :: file.cfg.workers.at[alias].ip;
    var ok, left := TearDownWorkers(file, patience);
    if !ok {
      return Failed;
    }
    if file.cfg.head.Some? {
      ghost var done;
      ok, left, done := file.RunTeardown(None, left);
      if !ok || left == Some(0) {
        return Failed;
      }
      left := Left(left, 1);
      var head := file.cfg.head.value;
      ForgetHead(file);
      if left == Some(0) {
        return Failed;
      }
      left := Left(left, 1);
      FreshHeadValid(file.cfg, head);
      file.cfg := file.cfg.(head := Some(head.(done := [])));
      ok, left, done := file.RunSetup(None, left);
      if !ok {
        return Failed;
      }
    }
    ok, left := RestoreWorkers(file, cfg, aliases, hosts, left);
    outcome := if ok then Completed else Failed;
  }

  lemma FreshHeadValid(cfg: Config, head: Head)
    requires cfg.Valid() && cfg.workers.at == map[]
    ensures cfg.(head := Some(head.(done := []))).Valid()
  {
    hide HeadSteps;
  }
}
