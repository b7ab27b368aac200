/** What the jobs control plane guarantees for a job, along every run. */
module JobSafety {
  import opened Common
  import opened JobRecords
  import opened JobMachine

  /******* While every dispatched worker stays in the dict *******/

  /** The dict entry that stands for the job: the cycle's own while one runs. */
  function Entry(j: Job): Option<nat> {
    if j.phase.Idle? then j.kept else j.current
  }

  ghost predicate NoneUnfinished(j: Job) {
    forall w: nat :: !Unfinished(j, w)
  }

  ghost predicate NoneLive(j: Job) {
    forall k: nat :: !Live(j.ray, k)
  }

  /** A worker brings Ray at most one submission, or two if Ray loses its store
      between the first and the fallback. */
  ghost predicate LateWithin(j: Job, worker: Worker) {
    if worker.phase.Failing? then
      j.lateSubmissions <= 1 && (j.lateSubmissions == 1 && !j.lostLate ==> worker.attempt in j.ray)
    else j.lateSubmissions == 0
  }

  predicate BeforeSubmitting(worker: Worker) {
    worker.phase.Queued? || worker.phase.Loaded?
  }

  /** An unfinished worker is the one in the dict; nothing but its own attempt
      is live, no submission is later than its own, and Ray does not hold its
      own before it submits. */
  ghost predicate WorkersTracked(j: Job) {
    forall w: nat :: Unfinished(j, w) ==>
      && Entry(j) == Some(w)
      && (forall k: nat :: Live(j.ray, k) ==> k == j.workers[w].attempt)
      && (forall k: nat :: k in j.ray ==> k <= j.workers[w].attempt)
      && (BeforeSubmitting(j.workers[w]) ==> j.workers[w].attempt !in j.ray)
      && LateWithin(j, j.workers[w])
  }

  /** Only the latest attempt is live. */
  ghost predicate LiveIsLatest(j: Job) {
    forall k: nat, m: nat :: Live(j.ray, k) && m in j.ray ==> m <= k
  }

  /** From the listing until the decision, Ray holds nothing newer than the
      listed attempt. */
  ghost predicate ListingHolds(j: Job) {
    (j.phase.Matched? || j.phase.Recorded?) ==>
      && (forall k: nat :: k in j.ray ==> j.phase.rjob.Some? && k <= j.phase.rjob.value)
      && (forall k: nat :: Live(j.ray, k) ==> j.phase.rjob == Some(k))
  }

  /** A copy recorded as done was recorded from Ray's own final answer. */
  ghost predicate DoneIsFinal(j: Job) {
    j.phase.Recorded? && j.phase.cjob.Done() ==>
      j.phase.rjob.Some? &&
      (j.phase.rjob.value in j.ray ==>
        Terminal(j.ray[j.phase.rjob.value]) &&
        StatusOf(j.ray, j.phase.rjob) == j.phase.cjob.history[|j.phase.cjob.history| - 1].state)
  }

  ghost predicate StopHeeded(j: Job) {
    && j.lateSubmissions <= (if j.lostLate then 2 else 1)
    && ((j.phase.Listed? || j.phase.Matched? || j.phase.Recorded?) && j.current.None? && !j.phase.cjob.stop ==>
         j.lateSubmissions == 0)
    && (j.phase == Passed(Handled) && j.stopAtReap ==>
         NoneUnfinished(j) && forall k: nat :: Live(j.ray, k) ==> k in j.stopAsked)
  }

  ghost predicate DoneIsQuiet(j: Job) {
    j.record.Done() ==> NoneLive(j) && NoneUnfinished(j)
  }

  ghost predicate SeenOnceIsQuiet(j: Job) {
    !j.record.retry && j.record.SeenInRay() ==> NoneUnfinished(j)
  }

  ghost predicate Tracked(j: Job) {
    && WorkersTracked(j)
    && LiveIsLatest(j)
    && ListingHolds(j)
    && DoneIsFinal(j)
    && StopHeeded(j)
    && DoneIsQuiet(j)
    && SeenOnceIsQuiet(j)
  }

  lemma TrackedByCycle(j: Job, a: Action, k: Job)
    requires Basics(j) && Tracked(j) && Next(j, a, k) && !k.orphaned
    requires a.Reap? || a.ListOpen? || a.ListRay? || a.EndCycle? || a.RaiseCycle? || a.UserStops?
    ensures Tracked(k)
  {
    hide Next, Basics, WorkersTracked, LiveIsLatest, ListingHolds, DoneIsFinal, StopHeeded, DoneIsQuiet,
      SeenOnceIsQuiet;
    CycleTracksWorkers(j, a, k);
    CycleHeedsStop(j, a, k);
    CycleListsAll(j, a, k);
  }

  /** These steps leave workers, submissions and history as they are, and the
      job's entry drops only a worker that has finished. */
  lemma CycleTracksWorkers(j: Job, a: Action, k: Job)
    requires Basics(j) && Tracked(j) && Next(j, a, k) && !k.orphaned
    requires a.Reap? || a.ListOpen? || a.ListRay? || a.EndCycle? || a.RaiseCycle? || a.UserStops?
    ensures WorkersTracked(k) && LiveIsLatest(k) && DoneIsQuiet(k) && SeenOnceIsQuiet(k)
  {
    hide Decide, Observe, StatusOf, StopHeeded, ListingHolds, DoneIsFinal, HonestHistory, IsLatest, CopyIsFresh;
    if a.UserStops? {
      assert k == j.(record := k.record);
    } else {
      PollLeavesRest(j, a, k);
    }
    assert k.workers == j.workers && k.ray == j.ray;
    assert k.lateSubmissions == j.lateSubmissions && k.lostLate == j.lostLate;
    assert k.record == j.record.(stop := k.record.stop);
    assert k.record.Done() == j.record.Done() && k.record.SeenInRay() == j.record.SeenInRay();
    assert forall w: nat :: Unfinished(k, w) == Unfinished(j, w);
    forall w: nat | Unfinished(k, w) ensures Entry(k) == Some(w) {
      assert Unfinished(j, w);
    }
  }

  lemma CycleHeedsStop(j: Job, a: Action, k: Job)
    requires Basics(j) && Tracked(j) && Next(j, a, k)
    requires a.Reap? || a.ListOpen? || a.ListRay? || a.EndCycle? || a.RaiseCycle? || a.UserStops?
    ensures StopHeeded(k)
  {
    hide Decide, Observe, StatusOf, EffectiveStatus, HonestHistory, LiveIsLatest, DoneIsQuiet, SeenOnceIsQuiet;
  }

  lemma CycleListsAll(j: Job, a: Action, k: Job)
    requires Basics(j) && Tracked(j) && Next(j, a, k)
    requires a.Reap? || a.ListOpen? || a.ListRay? || a.EndCycle? || a.RaiseCycle? || a.UserStops?
    ensures ListingHolds(k) && DoneIsFinal(k)
  {
    hide Decide, Observe, HonestHistory, StopHeeded, DoneIsQuiet, SeenOnceIsQuiet, WorkersTracked;
  }

  lemma TrackedByRecording(j: Job, a: Action, k: Job)
    requires Basics(j) && Tracked(j) && Next(j, a, k) && a.RecordObserved?
    ensures Tracked(k)
  {
    assert forall w: nat :: !Unfinished(j, w);
    assert forall w: nat :: !Unfinished(k, w);
  }

  lemma TrackedByAct(j: Job, a: Action, k: Job)
    requires Basics(j) && Tracked(j) && Next(j, a, k) && a.Act?
    ensures Tracked(k)
  {
    hide StatusOf;
    var cjob, rjob := j.phase.cjob, j.phase.rjob;
    var verdict := Decide(cjob, rjob, StatusOf(j.ray, rjob));
    assert forall w: nat :: !Unfinished(j, w);
    ActHeedsStop(j, k);
    DispatchIsNew(j, verdict);
    CarriedTracked(j, verdict, k);
  }

  /** A dispatched worker's attempt is later than all that Ray holds, nothing
      is live, nothing came late, and the job is not over. */
  lemma DispatchIsNew(j: Job, verdict: Verdict)
    requires Basics(j) && Tracked(j) && j.phase.Recorded? && Answers(j.ray, j.phase.rjob)
    requires verdict == Decide(j.phase.cjob, j.phase.rjob, StatusOf(j.ray, j.phase.rjob))
    ensures verdict.Dispatch? ==>
      NoneLive(j) && (forall k: nat :: k in j.ray ==> k < verdict.attempt) && j.lateSubmissions == 0
    ensures verdict.Dispatch? ==> !j.record.Done() && (j.record.retry || !j.record.SeenInRay())
  {
    hide WorkersTracked, LiveIsLatest, DoneIsQuiet, SeenOnceIsQuiet, StatusOf;
    DispatchMeaning(j.phase.cjob, j.phase.rjob, j.ray);
    if verdict.Dispatch? && j.record.Done() {
      DoneIsNotDispatched(j, verdict);
    }
  }

  lemma DoneIsNotDispatched(j: Job, verdict: Verdict)
    requires Basics(j) && Tracked(j) && j.phase.Recorded? && Answers(j.ray, j.phase.rjob) && j.record.Done()
    requires verdict == Decide(j.phase.cjob, j.phase.rjob, StatusOf(j.ray, j.phase.rjob))
    ensures !verdict.Dispatch?
  {
    hide WorkersTracked, LiveIsLatest, DoneIsQuiet, SeenOnceIsQuiet, StopHeeded, ListingHolds;
    assert j.phase.cjob.Done();
    DispatchMeaning(j.phase.cjob, j.phase.rjob, j.ray);
  }

  lemma CarriedTracked(j: Job, verdict: Verdict, k: Job)
    requires Tracked(j) && NoneUnfinished(j) && j.phase.Recorded? && j.current.None?
    requires k == Carry(j, verdict).(phase := Passed(Handled)) && StopHeeded(k)
    requires verdict.Dispatch? ==>
      NoneLive(j) && (forall n: nat :: n in j.ray ==> n < verdict.attempt) && j.lateSubmissions == 0
    requires verdict.Dispatch? ==> !j.record.Done() && (j.record.retry || !j.record.SeenInRay())
    ensures Tracked(k)
  {
    hide StopHeeded, Record.Done, Record.SeenInRay;
    assert k.ray == j.ray && k.record == j.record && k.lateSubmissions == j.lateSubmissions;
    forall w: nat | Unfinished(k, w)
      ensures verdict.Dispatch? && w == |j.workers| && k.workers[w] == Worker(verdict.attempt, Queued)
    {
      assert !Unfinished(j, w);
    }
  }

  lemma ActHeedsStop(j: Job, k: Job)
    requires Basics(j) && Tracked(j) && Next(j, Act, k)
    ensures StopHeeded(k)
  {
    hide StatusOf, EffectiveStatus, DoneIsFinal, HonestHistory;
    assert forall w: nat :: !Unfinished(j, w);
    if j.stopAtReap {
      assert j.phase.cjob.stop;
    }
  }

  /** What any step of worker `w` can do: change its phase, and bring its own
      attempt to Ray if Ray does not hold it. */
  ghost predicate WorkerStep(j: Job, w: nat, k: Job) {
    && Unfinished(j, w)
    && |k.workers| == |j.workers|
    && (forall i: nat :: i < |j.workers| ==> k.workers[i].attempt == j.workers[i].attempt)
    && (forall i: nat :: Unfinished(k, i) ==> Unfinished(j, i))
    && k == j.(workers := k.workers, ray := k.ray, lateSubmissions := k.lateSubmissions)
    && (j.workers[w].phase.Failing? ==> k.workers[w].phase.Ended?)
    && if k.ray == j.ray then k.lateSubmissions == j.lateSubmissions
       else
         var n := j.workers[w].attempt;
         && n !in j.ray && k.ray == j.ray[n := RayPending]
         && (k.workers[w].phase.Failing? || k.workers[w].phase.Ended?)
         && k.lateSubmissions == (if j.record.stop then j.lateSubmissions + 1 else j.lateSubmissions)
  }

  lemma WorkerStepShape(j: Job, a: Action, k: Job)
    requires Next(j, a, k)
    requires a.WorkerLoads? || a.WorkerFails? || a.WorkerSubmits? || a.WorkerFallsBack? || a.WorkerDies?
    ensures WorkerStep(j, a.w, k)
  {
    if a.WorkerSubmits? || a.WorkerFallsBack? {
      SubmissionShape(j, a, k);
    } else {
      var phase := k.workers[a.w].phase;
      assert k == SetPhase(j, a.w, phase);
    }
  }

  lemma SubmissionShape(j: Job, a: Action, k: Job)
    requires Next(j, a, k) && (a.WorkerSubmits? || a.WorkerFallsBack?)
    ensures WorkerStep(j, a.w, k)
  {
    var accepted := if k.ray == j.ray then j else Accept(j, j.workers[a.w].attempt);
    assert k == SetPhase(accepted, a.w, k.workers[a.w].phase);
  }

  lemma TrackedByWorker(j: Job, w: nat, k: Job)
    requires Basics(j) && Tracked(j) && WorkerStep(j, w, k)
    ensures Tracked(k)
  {
    hide Basics;
    var n := j.workers[w].attempt;
    assert Unfinished(j, w) && forall i: nat :: Unfinished(j, i) ==> i == w;
    forall m: nat | Live(k.ray, m) ensures m == n {
      assert m == n || Live(j.ray, m);
    }
    assert forall m: nat :: m in k.ray ==> m <= n;
    TrackedByWorkerInCycle(j, w, k);
  }

  /** No cycle can be between listing and decision, nor can the job be done,
      while a worker is unfinished. */
  lemma TrackedByWorkerInCycle(j: Job, w: nat, k: Job)
    requires Basics(j) && Tracked(j) && WorkerStep(j, w, k)
    ensures ListingHolds(k) && DoneIsFinal(k) && StopHeeded(k) && DoneIsQuiet(k) && SeenOnceIsQuiet(k)
  {
    hide CopyIsFresh, IndicesValid, HonestHistory;
    assert Unfinished(j, w);
    assert !j.phase.Matched? && !j.phase.Recorded?;
  }

  lemma TrackedByRay(j: Job, a: Action, k: Job)
    requires Basics(j) && Tracked(j) && Next(j, a, k) && (a.RayMoves? || a.RayLoses?)
    ensures Tracked(k)
  {
    assert forall n: nat :: Live(k.ray, n) ==> Live(j.ray, n);
    assert forall n: nat :: n in k.ray ==> n in j.ray;
    assert forall w: nat :: Unfinished(k, w) ==> Unfinished(j, w);
  }

  /******* While Ray's store survives *******/

  ghost predicate AttemptsContiguous(ray: RayStore) {
    && (forall k: nat :: k in ray <==> k < |ray|)
    && (forall k: nat :: k + 1 < |ray| ==> k in ray && ray[k] == RayFailed)
  }

  /** Every attempt still to come is at most the next one, after a failure. */
  ghost predicate WorkersInOrder(j: Job) {
    forall w: nat :: Unfinished(j, w) ==>
      var n := j.workers[w].attempt;
      n <= |j.ray| && (n == |j.ray| && n > 0 ==> n - 1 in j.ray && j.ray[n - 1] == RayFailed)
  }

  ghost predicate ListingIsReal(j: Job) {
    (j.phase.Matched? || j.phase.Recorded?) ==>
      && (j.phase.rjob.Some? ==> j.phase.rjob.value in j.ray)
      && (j.phase.rjob.None? ==> !j.record.SeenInRay())
  }

  ghost predicate Contiguous(j: Job) {
    && AttemptsContiguous(j.ray)
    && WorkersInOrder(j)
    && ListingIsReal(j)
    && DoneIsFinal(j)
    && (j.record.SeenInRay() ==> j.ray != map[])
  }

  lemma ContiguousByCycle(j: Job, a: Action, k: Job)
    requires Basics(j) && Contiguous(j) && Next(j, a, k)
    requires a.Reap? || a.ListOpen? || a.ListRay? || a.EndCycle? || a.RaiseCycle? || a.UserStops?
    ensures Contiguous(k)
  {
    hide Decide, Observe, StatusOf, HonestHistory, AttemptsContiguous;
    if a.UserStops? {
      assert k == j.(record := k.record);
    } else {
      PollLeavesRest(j, a, k);
    }
    assert k.record.history == j.record.history;
    assert forall w: nat :: Unfinished(k, w) == Unfinished(j, w);
  }

  lemma ContiguousByRecording(j: Job, a: Action, k: Job)
    requires Basics(j) && Contiguous(j) && Next(j, a, k) && a.RecordObserved?
    ensures Contiguous(k)
  {
    assert forall w: nat :: Unfinished(k, w) ==> Unfinished(j, w);
  }

  lemma ContiguousByAct(j: Job, a: Action, k: Job)
    requires Basics(j) && Contiguous(j) && Next(j, a, k) && a.Act?
    ensures Contiguous(k)
  {
    hide Decide;
    var verdict := Decide(j.phase.cjob, j.phase.rjob, StatusOf(j.ray, j.phase.rjob));
    DispatchInOrder(j, verdict);
    CarriedContiguous(j, verdict, k);
  }

  lemma CarriedContiguous(j: Job, verdict: Verdict, k: Job)
    requires Contiguous(j) && k == Carry(j, verdict).(phase := Passed(Handled))
    requires verdict.Dispatch? ==>
      verdict.attempt <= |j.ray| &&
      (verdict.attempt == |j.ray| && verdict.attempt > 0 ==>
        verdict.attempt - 1 in j.ray && j.ray[verdict.attempt - 1] == RayFailed)
    ensures Contiguous(k)
  {
    forall w: nat | Unfinished(k, w) && w < |j.workers| ensures Unfinished(j, w) {
    }
  }

  /** A dispatched attempt is at most the next one, after a failure. */
  lemma DispatchInOrder(j: Job, verdict: Verdict)
    requires Basics(j) && Contiguous(j) && j.phase.Recorded? && Answers(j.ray, j.phase.rjob)
    requires verdict == Decide(j.phase.cjob, j.phase.rjob, StatusOf(j.ray, j.phase.rjob))
    ensures verdict.Dispatch? ==>
      verdict.attempt <= |j.ray| &&
      (verdict.attempt == |j.ray| && verdict.attempt > 0 ==>
        verdict.attempt - 1 in j.ray && j.ray[verdict.attempt - 1] == RayFailed)
  {
    DispatchMeaning(j.phase.cjob, j.phase.rjob, j.ray);
    LastReportedIff(j.phase.cjob);
  }

  lemma NextAttempt(ray: RayStore, n: nat)
    requires AttemptsContiguous(ray) && n <= |ray| && n !in ray
    requires n > 0 ==> n - 1 in ray && ray[n - 1] == RayFailed
    ensures n == |ray| && |ray[n := RayPending]| == |ray| + 1
    ensures AttemptsContiguous(ray[n := RayPending])
  {
  }

  lemma ContiguousByWorker(j: Job, w: nat, k: Job)
    requires Contiguous(j) && WorkerStep(j, w, k)
    ensures Contiguous(k)
  {
    var n := j.workers[w].attempt;
    if k.ray != j.ray {
      NextAttempt(j.ray, n);
    }
  }

  lemma ContiguousByRay(j: Job, a: Action, k: Job)
    requires Basics(j) && Contiguous(j) && Next(j, a, k) && a.RayMoves?
    ensures Contiguous(k)
  {
    assert forall w: nat :: Unfinished(k, w) ==> Unfinished(j, w);
    assert k.ray.Keys == j.ray.Keys;
    assert |k.ray| == |k.ray.Keys| && |j.ray| == |j.ray.Keys|;
  }

  /******* Every reachable state *******/

  ghost predicate Inv(j: Job) {
    && Basics(j)
    && (!j.orphaned ==> Tracked(j))
    && (!j.lost ==> Contiguous(j))
  }

  lemma InitHasInv(j: Job)
    requires Init(j)
    ensures Inv(j)
  {
  }

  lemma TrackedKept(j: Job, a: Action, k: Job)
    requires Basics(j) && Tracked(j) && Next(j, a, k) && !k.orphaned
    ensures Tracked(k)
  {
    hide Next, Basics, Tracked;
    match a
    case RecordObserved => TrackedByRecording(j, a, k);
    case Act => TrackedByAct(j, a, k);
    case WorkerLoads(w, _) => WorkerStepShape(j, a, k); TrackedByWorker(j, w, k);
    case WorkerFails(w) => WorkerStepShape(j, a, k); TrackedByWorker(j, w, k);
    case WorkerSubmits(w, _) => WorkerStepShape(j, a, k); TrackedByWorker(j, w, k);
    case WorkerFallsBack(w, _) => WorkerStepShape(j, a, k); TrackedByWorker(j, w, k);
    case WorkerDies(w) => WorkerStepShape(j, a, k); TrackedByWorker(j, w, k);
    case RayMoves(_, _) => TrackedByRay(j, a, k);
    case RayLoses => TrackedByRay(j, a, k);
    case _ => TrackedByCycle(j, a, k);
  }

  lemma ContiguousKept(j: Job, a: Action, k: Job)
    requires Basics(j) && Contiguous(j) && Next(j, a, k) && !a.RayLoses?
    ensures Contiguous(k)
  {
    hide Next, Basics, Contiguous;
    match a
    case RecordObserved => ContiguousByRecording(j, a, k);
    case Act => ContiguousByAct(j, a, k);
    case WorkerLoads(w, _) => WorkerStepShape(j, a, k); ContiguousByWorker(j, w, k);
    case WorkerFails(w) => WorkerStepShape(j, a, k); ContiguousByWorker(j, w, k);
    case WorkerSubmits(w, _) => WorkerStepShape(j, a, k); ContiguousByWorker(j, w, k);
    case WorkerFallsBack(w, _) => WorkerStepShape(j, a, k); ContiguousByWorker(j, w, k);
    case WorkerDies(w) => WorkerStepShape(j, a, k); ContiguousByWorker(j, w, k);
    case RayMoves(_, _) => ContiguousByRay(j, a, k);
    case _ => ContiguousByCycle(j, a, k);
  }

  lemma FlagsStay(j: Job, a: Action, k: Job)
    requires Next(j, a, k)
    ensures j.orphaned ==> k.orphaned
    ensures j.lost ==> k.lost
    ensures a.RayLoses? ==> k.lost
  {
  }

  lemma InvKept(j: Job, a: Action, k: Job)
    requires Inv(j) && Next(j, a, k)
    ensures Inv(k)
  {
    FlagsStay(j, a, k);
    BasicsKept(j, a, k);
    hide Next, Basics, Tracked, Contiguous;
    if !k.orphaned {
      TrackedKept(j, a, k);
    }
    if !k.lost {
      ContiguousKept(j, a, k);
    }
  }

  lemma {:induction false} RunHasInv(jobs: seq<Job>, actions: seq<Action>, n: nat)
    requires IsRun(jobs, actions) && n < |jobs|
    ensures Inv(jobs[n])
  {
    hide Inv, Next, Init;
    if n == 0 {
      InitHasInv(jobs[0]);
    } else {
      RunHasInv(jobs, actions, n - 1);
      assert Next(jobs[n - 1], actions[n - 1], jobs[n - 1 + 1]);
      InvKept(jobs[n - 1], actions[n - 1], jobs[n]);
    }
  }
}
