/** jobs_control_plane/server.py: what can still reach Ray after a stop, along
    every run, whatever is lost and whatever raises. */
module JobStops {
  import opened Common
  import opened JobRecords
  import opened JobMachine
  import opened JobSafety
  import opened JobTheorems

  /** How many submissions a worker may still bring to Ray once the latch is
      set; `kept` says that Ray keeps its store from now on. A worker that has
      read the job submits and may fall back; any other can only fall back. */
  function StillToBring(worker: Worker, ray: RayStore, kept: bool): nat {
    if worker.phase.Ended? || (kept && worker.attempt in ray) then 0
    else if worker.phase.Loaded? && !kept then 2
    else 1
  }

  function WorkersToBring(workers: seq<Worker>, ray: RayStore, kept: bool): nat {
    if workers == [] then 0
    else WorkersToBring(workers[..|workers| - 1], ray, kept) + StillToBring(workers[|workers| - 1], ray, kept)
  }

  /** A cycle that read the job before the stop may dispatch one more worker. */
  function CycleToBring(j: Job): nat {
    if (j.phase.Listed? || j.phase.Matched? || j.phase.Recorded?) && !j.phase.cjob.stop then 1 else 0
  }

  function ToBring(j: Job, kept: bool): nat {
    WorkersToBring(j.workers, j.ray, kept) + CycleToBring(j)
  }

  /** Worker `w` has `spent` less to bring, and no other has more. */
  lemma {:induction false} FewerToBring(
    before: seq<Worker>, ray: RayStore, after: seq<Worker>, rayAfter: RayStore, kept: bool, w: nat, spent: nat)
    requires w < |before| == |after|
    requires forall i: nat :: i < |before| ==>
      StillToBring(after[i], rayAfter, kept) <= StillToBring(before[i], ray, kept)
    requires StillToBring(after[w], rayAfter, kept) + spent <= StillToBring(before[w], ray, kept)
    ensures WorkersToBring(after, rayAfter, kept) + spent <= WorkersToBring(before, ray, kept)
  {
    hide StillToBring;
    var last := |before| - 1;
    if w < last {
      FewerToBring(before[..last], ray, after[..last], rayAfter, kept, w, spent);
    } else {
      NoMoreToBring(before[..last], ray, after[..last], rayAfter, kept);
    }
  }

  lemma {:induction false} NoMoreToBring(
    before: seq<Worker>, ray: RayStore, after: seq<Worker>, rayAfter: RayStore, kept: bool)
    requires |before| == |after|
    requires forall i: nat :: i < |before| ==>
      StillToBring(after[i], rayAfter, kept) <= StillToBring(before[i], ray, kept)
    ensures WorkersToBring(after, rayAfter, kept) <= WorkersToBring(before, ray, kept)
  {
    hide StillToBring;
    if before != [] {
      NoMoreToBring(before[..|before| - 1], ray, after[..|after| - 1], rayAfter, kept);
    }
  }

  lemma PollBringsNoMore(j: Job, a: Action, k: Job, kept: bool)
    requires Next(j, a, k) && IsPollStep(a) && j.record.stop && !a.Act?
    ensures k.lateSubmissions + ToBring(k, kept) <= j.lateSubmissions + ToBring(j, kept)
  {
    hide StatusOf, StillToBring, WorkersToBring, AlreadyRecorded;
    assert k.workers == j.workers && k.ray == j.ray && k.lateSubmissions == j.lateSubmissions;
  }

  /** The one dispatch that may come after the stop uses up the cycle's share. */
  lemma ActBringsNoMore(j: Job, k: Job, kept: bool)
    requires Next(j, Act, k) && j.record.stop
    ensures k.lateSubmissions + ToBring(k, kept) <= j.lateSubmissions + ToBring(j, kept)
  {
    hide StatusOf, EffectiveStatus, StillToBring;
    var verdict := Decide(j.phase.cjob, j.phase.rjob, StatusOf(j.ray, j.phase.rjob));
    assert verdict.Dispatch? ==> !j.phase.cjob.stop;
    hide Decide;
    if verdict.Dispatch? {
      assert k.workers[..|j.workers|] == j.workers;
      QueuedBringsOne(verdict.attempt, j.ray, kept);
    }
  }

  lemma QueuedBringsOne(attempt: nat, ray: RayStore, kept: bool)
    ensures StillToBring(Worker(attempt, Queued), ray, kept) <= 1
  {
  }

  /** What a worker brings is what it has less to bring; of the others, those
      with the same attempt may have less too. */
  lemma WorkerSpends(j: Job, a: Action, k: Job, kept: bool)
    requires Next(j, a, k) && j.record.stop
    requires a.WorkerLoads? || a.WorkerFails? || a.WorkerSubmits? || a.WorkerFallsBack? || a.WorkerDies?
    ensures k.lateSubmissions >= j.lateSubmissions && |k.workers| == |j.workers|
    ensures forall i: nat :: i < |j.workers| ==>
      StillToBring(k.workers[i], k.ray, kept) <= StillToBring(j.workers[i], j.ray, kept)
    ensures StillToBring(k.workers[a.w], k.ray, kept) + (k.lateSubmissions - j.lateSubmissions)
      <= StillToBring(j.workers[a.w], j.ray, kept)
  {
    hide StillToBring;
    assert k.workers == j.workers[a.w := k.workers[a.w]] && k.workers[a.w].attempt == j.workers[a.w].attempt;
    assert forall n :: n in j.ray ==> n in k.ray;
    forall i: nat | i < |j.workers| && i != a.w
      ensures StillToBring(k.workers[i], k.ray, kept) <= StillToBring(j.workers[i], j.ray, kept)
    {
      LessWithMore(j.workers[i], j.ray, k.ray, kept);
    }
    OwnShare(j, a, k, kept);
  }

  lemma LessWithMore(worker: Worker, ray: RayStore, more: RayStore, kept: bool)
    requires forall n :: n in ray ==> n in more
    ensures StillToBring(worker, more, kept) <= StillToBring(worker, ray, kept)
  {
  }

  lemma OwnShare(j: Job, a: Action, k: Job, kept: bool)
    requires Next(j, a, k) && j.record.stop
    requires a.WorkerLoads? || a.WorkerFails? || a.WorkerSubmits? || a.WorkerFallsBack? || a.WorkerDies?
    ensures StillToBring(k.workers[a.w], k.ray, kept) + (k.lateSubmissions - j.lateSubmissions)
      <= StillToBring(j.workers[a.w], j.ray, kept)
  {
  }

  lemma WorkerBringsNoMore(j: Job, a: Action, k: Job, kept: bool)
    requires Next(j, a, k) && j.record.stop
    requires a.WorkerLoads? || a.WorkerFails? || a.WorkerSubmits? || a.WorkerFallsBack? || a.WorkerDies?
    ensures k.lateSubmissions + ToBring(k, kept) <= j.lateSubmissions + ToBring(j, kept)
  {
    hide WorkersToBring;
    assert k.phase == j.phase && k.lateSubmissions >= j.lateSubmissions;
    WorkerSpends(j, a, k, kept);
    FewerToBring(j.workers, j.ray, k.workers, k.ray, kept, a.w, k.lateSubmissions - j.lateSubmissions);
  }

  lemma OthersBringNoMore(j: Job, a: Action, k: Job, kept: bool)
    requires Next(j, a, k) && (a.UserStops? || a.RayMoves? || (a.RayLoses? && !kept))
    ensures k.lateSubmissions + ToBring(k, kept) <= j.lateSubmissions + ToBring(j, kept)
  {
    NoMoreToBring(j.workers, j.ray, k.workers, k.ray, kept);
  }

  lemma BringsNoMore(j: Job, a: Action, k: Job, kept: bool)
    requires Next(j, a, k) && j.record.stop && (kept ==> !a.RayLoses?)
    ensures k.lateSubmissions + ToBring(k, kept) <= j.lateSubmissions + ToBring(j, kept)
  {
    hide Next, ToBring;
    if a.Act? {
      ActBringsNoMore(j, k, kept);
    } else if IsPollStep(a) {
      PollBringsNoMore(j, a, k, kept);
    } else if a.UserStops? || a.RayMoves? || a.RayLoses? {
      OthersBringNoMore(j, a, k, kept);
    } else {
      WorkerBringsNoMore(j, a, k, kept);
    }
  }

  /** From any state after the stop on, along every run: no more submissions
      reach Ray than the workers and the cycle of that state can still bring,
      which is fewer if Ray keeps its store. */
  lemma {:induction false} LateSubmissionsBounded(
    jobs: seq<Job>, actions: seq<Action>, m: nat, n: nat, kept: bool)
    requires IsRun(jobs, actions) && m <= n < |jobs| && jobs[m].record.stop
    requires kept ==> forall i :: m <= i < n ==> !actions[i].RayLoses?
    ensures jobs[n].lateSubmissions + ToBring(jobs[n], kept) <= jobs[m].lateSubmissions + ToBring(jobs[m], kept)
    decreases n
  {
    hide Next, Init, ToBring;
    if m < n {
      LateSubmissionsBounded(jobs, actions, m, n - 1, kept);
      LatchNeverClears(jobs, actions, m, n - 1);
      assert Next(jobs[n - 1], actions[n - 1], jobs[n - 1 + 1]);
      BringsNoMore(jobs[n - 1], actions[n - 1], jobs[n], kept);
    }
  }

  function UnfinishedWorkers(workers: seq<Worker>): nat {
    if workers == [] then 0
    else
      UnfinishedWorkers(workers[..|workers| - 1]) + if workers[|workers| - 1].phase.Ended? then 0 else 1
  }

  lemma {:induction false} AtMostOneEach(workers: seq<Worker>, ray: RayStore)
    ensures WorkersToBring(workers, ray, true) <= UnfinishedWorkers(workers)
    ensures WorkersToBring(workers, ray, false) <= 2 * UnfinishedWorkers(workers)
  {
    if workers != [] {
      AtMostOneEach(workers[..|workers| - 1], ray);
    }
  }

  /** Counted from the stop itself: one submission per worker unfinished then,
      and one more if a cycle was past reading the job; or twice as many per
      worker if Ray loses its store later. */
  lemma StopBound(jobs: seq<Job>, actions: seq<Action>, m: nat, n: nat)
    requires IsRun(jobs, actions) && m < n < |jobs|
    requires actions[m] == UserStops && !jobs[m].record.stop
    ensures (forall i :: m < i < n ==> !actions[i].RayLoses?) ==>
      jobs[n].lateSubmissions <= UnfinishedWorkers(jobs[m].workers) + CycleToBring(jobs[m])
    ensures jobs[n].lateSubmissions <= 2 * UnfinishedWorkers(jobs[m].workers) + CycleToBring(jobs[m])
  {
    hide Init, WorkersToBring, UnfinishedWorkers;
    assert Next(jobs[m], actions[m], jobs[m + 1]);
    RunHasInv(jobs, actions, m);
    assert jobs[m].lateSubmissions == 0;
    AtMostOneEach(jobs[m].workers, jobs[m].ray);
    LateSubmissionsBounded(jobs, actions, m + 1, n, false);
    if forall i :: m < i < n ==> !actions[i].RayLoses? {
      LateSubmissionsBounded(jobs, actions, m + 1, n, true);
    }
  }
}
