/** jobs_control_plane/server.py: the promises of the jobs control plane, each
    along every run of `JobMachine`. */
module JobTheorems {
  import opened Common
  import opened JobRecords
  import opened JobMachine
  import opened JobSafety
  import opened PollMeaning

  /** A worker whose submission is still to come: it has not tried, or it is to
      fall back and Ray does not hold its attempt. */
  ghost predicate YetToSubmit(j: Job, w: nat) {
    Unfinished(j, w) && (BeforeSubmitting(j.workers[w]) || j.workers[w].attempt !in j.ray)
  }

  /** Never two live attempts of one job, unless a cycle lost track of a worker
      and Ray lost its store. None is live while a worker that the dict keeps
      track of has yet to submit: one that has not tried, or one that has and
      whose attempt Ray does not hold. */
  lemma AtMostOneLive(jobs: seq<Job>, actions: seq<Action>, n: nat)
    requires IsRun(jobs, actions) && n < |jobs|
    ensures !jobs[n].lost || !jobs[n].orphaned ==>
      forall a: nat, b: nat :: Live(jobs[n].ray, a) && Live(jobs[n].ray, b) ==> a == b
    ensures !jobs[n].orphaned ==>
      forall w: nat :: YetToSubmit(jobs[n], w) ==> jobs[n].workers[w].attempt !in jobs[n].ray && NoneLive(jobs[n])
  {
    RunHasInv(jobs, actions, n);
    var j := jobs[n];
    hide IsRun, Basics;
    if !j.lost {
      forall a: nat, b: nat | Live(j.ray, a) && Live(j.ray, b) ensures a == b {
        FailedBeforeLast(j, a);
        FailedBeforeLast(j, b);
      }
    }
  }

  lemma FailedBeforeLast(j: Job, a: nat)
    requires Inv(j) && !j.lost && a in j.ray
    ensures a < |j.ray| && (a + 1 < |j.ray| ==> j.ray[a] == RayFailed)
  {
  }

  /** While Ray's store survives, the attempts are exactly 0, 1, 2, ... and
      each but the last has failed, however many cycles raised. */
  lemma AttemptsAreRetries(jobs: seq<Job>, actions: seq<Action>, n: nat)
    requires IsRun(jobs, actions) && n < |jobs| && !jobs[n].lost
    ensures forall k: nat :: k in jobs[n].ray <==> k < |jobs[n].ray|
    ensures forall k: nat :: k + 1 < |jobs[n].ray| ==> jobs[n].ray[k] == RayFailed
  {
    RunHasInv(jobs, actions, n);
    hide IsRun, Basics;
  }

  /******* Stopping *******/

  lemma LatchStep(j: Job, a: Action, k: Job)
    requires Next(j, a, k)
    ensures j.record.stop ==> k.record.stop
    ensures k.record.retry == j.record.retry
  {
    if !IsPollStep(a) {
      OthersLeavePoll(j, a, k);
    } else if a.Act? {
      hide Decide, StatusOf;
      assert k.record == j.record;
    } else if a.RecordObserved? {
      hide Decide, StatusOf, Observe, AlreadyRecorded;
    } else {
      assert k.record == j.record;
    }
  }

  /** The stop latch is never cleared, stale saves included. */
  lemma {:induction false} LatchNeverClears(jobs: seq<Job>, actions: seq<Action>, m: nat, n: nat)
    requires IsRun(jobs, actions) && m <= n < |jobs|
    ensures jobs[m].record.stop ==> jobs[n].record.stop
    ensures jobs[n].record.retry == jobs[m].record.retry
    decreases n
  {
    hide Next, Init;
    if m < n {
      LatchNeverClears(jobs, actions, m, n - 1);
      assert Next(jobs[n - 1], actions[n - 1], jobs[n - 1 + 1]);
      LatchStep(jobs[n - 1], actions[n - 1], jobs[n]);
    }
  }

  /** While the dict keeps track of every worker: once the latch is set at most
      one more submission reaches Ray, or two if Ray loses its store after the
      first of them; and a cycle that began after that and came past the job
      has itself asked Ray to stop whatever is live, unless a worker is still
      under way. For other runs see `JobStops`. */
  lemma StopIsHeeded(jobs: seq<Job>, actions: seq<Action>, n: nat)
    requires IsRun(jobs, actions) && n < |jobs| && !jobs[n].orphaned
    ensures jobs[n].lateSubmissions <= if jobs[n].lostLate then 2 else 1
    ensures jobs[n].phase.Passed? && jobs[n].stopAtReap && jobs[n].phase.outcome != StillInFlight ==>
      forall k: nat :: Live(jobs[n].ray, k) ==> k in jobs[n].stopAsked
  {
    RunHasInv(jobs, actions, n);
    hide IsRun;
    var j := jobs[n];
    if j.phase == Passed(NotOpen) {
      NotOpenIsDone(jobs, actions, n);
    }
  }

  lemma NotOpenStep(j: Job, a: Action, k: Job)
    requires j.phase == Passed(NotOpen) ==> j.record.Done()
    requires Next(j, a, k)
    ensures k.phase == Passed(NotOpen) ==> k.record.Done()
  {
    if !IsPollStep(a) {
      hide Next;
      OthersLeavePoll(j, a, k);
    } else {
      hide Decide, Observe, StatusOf;
    }
  }

  /** A cycle skips a job as not open only when its record is done. */
  lemma {:induction false} NotOpenIsDone(jobs: seq<Job>, actions: seq<Action>, n: nat)
    requires IsRun(jobs, actions) && n < |jobs|
    ensures jobs[n].phase == Passed(NotOpen) ==> jobs[n].record.Done()
  {
    hide Next;
    if n > 0 {
      NotOpenIsDone(jobs, actions, n - 1);
      assert Next(jobs[n - 1], actions[n - 1], jobs[n - 1 + 1]);
      NotOpenStep(jobs[n - 1], actions[n - 1], jobs[n]);
    }
  }

  /******* Finality *******/

  /** A record that is done stays as it is, and no worker is dispatched. */
  lemma DoneStep(j: Job, a: Action, k: Job)
    requires Inv(j) && Next(j, a, k) && j.record.Done()
    requires !j.lost || !j.orphaned
    ensures k.record.history == j.record.history && k.record.Done()
    ensures |k.workers| == |j.workers|
  {
    assert CopyIsFresh(j);
    if !IsPollStep(a) {
      hide Next, Inv;
      OthersLeavePoll(j, a, k);
    } else if a.Act? {
      DoneIsLeftAlone(j);
      hide Inv, Decide;
    } else {
      hide Inv, Decide, StatusOf;
    }
  }

  lemma DoneIsLeftAlone(j: Job)
    requires Inv(j) && j.record.Done() && j.phase.Recorded? && Answers(j.ray, j.phase.rjob)
    requires !j.lost || !j.orphaned
    ensures !Decide(j.phase.cjob, j.phase.rjob, StatusOf(j.ray, j.phase.rjob)).Dispatch?
  {
    hide WorkersTracked, LiveIsLatest, StopHeeded, DoneIsQuiet, SeenOnceIsQuiet, WorkersInOrder, AttemptsContiguous;
    assert DoneIsFinal(j);
    assert j.phase.cjob.Done();
    DispatchMeaning(j.phase.cjob, j.phase.rjob, j.ray);
  }

  /** A job once done for good is never dispatched again, even if Ray forgets
      everything, as long as no cycle had lost track of a worker before. */
  lemma {:induction false} DoneForGood(jobs: seq<Job>, actions: seq<Action>, m: nat, n: nat)
    requires IsRun(jobs, actions) && m <= n < |jobs|
    requires jobs[m].record.Done() && (!jobs[n].lost || !jobs[n].orphaned)
    ensures jobs[n].record.history == jobs[m].record.history
    ensures jobs[n].record.Done() && |jobs[n].workers| == |jobs[m].workers|
    decreases n
  {
    hide Next, Init, Inv;
    if m < n {
      assert Next(jobs[n - 1], actions[n - 1], jobs[n - 1 + 1]);
      FlagsStay(jobs[n - 1], actions[n - 1], jobs[n]);
      DoneForGood(jobs, actions, m, n - 1);
      RunHasInv(jobs, actions, n - 1);
      DoneStep(jobs[n - 1], actions[n - 1], jobs[n]);
    }
  }

  /** The history only grows. */
  lemma SeenStep(j: Job, a: Action, k: Job)
    requires Inv(j) && Next(j, a, k) && j.record.SeenInRay()
    ensures k.record.SeenInRay()
    ensures !j.record.retry ==> |k.workers| == |j.workers|
  {
    assert CopyIsFresh(j) && HonestHistory(j.record.history);
    hide Inv;
    if !IsPollStep(a) {
      hide Next;
      OthersLeavePoll(j, a, k);
    } else if a.Act? {
      if !j.record.retry {
        SeenOnceIsNotDispatched(j.phase.cjob, j.phase.rjob, j.ray);
      }
      hide Decide;
    } else {
      hide Next;
      PollLeavesRest(j, a, k);
      var i :| 0 <= i < |j.record.history| && j.record.history[i].rayJob.Some?;
      assert k.record.history[i] == j.record.history[i];
    }
  }

  /** A job without retry that was once seen in Ray is never dispatched again,
      whatever is lost and whatever raises. */
  lemma {:induction false} SeenOnceForGood(jobs: seq<Job>, actions: seq<Action>, m: nat, n: nat)
    requires IsRun(jobs, actions) && m <= n < |jobs|
    requires !jobs[m].record.retry && jobs[m].record.SeenInRay()
    ensures jobs[n].record.SeenInRay() && |jobs[n].workers| == |jobs[m].workers|
    decreases n
  {
    hide Next, Init, Inv;
    if m < n {
      assert Next(jobs[n - 1], actions[n - 1], jobs[n - 1 + 1]);
      SeenOnceForGood(jobs, actions, m, n - 1);
      LatchNeverClears(jobs, actions, m, n - 1);
      RunHasInv(jobs, actions, n - 1);
      SeenStep(jobs[n - 1], actions[n - 1], jobs[n]);
    }
  }

  lemma InvQuiet(j: Job)
    requires Inv(j) && !j.orphaned && !j.record.retry && j.record.SeenInRay()
    ensures NoneUnfinished(j)
  {
  }

  /** ... and while the dict keeps track of every worker, nothing of it reaches
      Ray again either. */
  lemma SeenOnceNeverSubmitted(jobs: seq<Job>, actions: seq<Action>, m: nat, n: nat)
    requires IsRun(jobs, actions) && m <= n < |actions| && !jobs[n].orphaned
    requires !jobs[m].record.retry && jobs[m].record.SeenInRay()
    ensures jobs[n + 1].ray.Keys <= jobs[n].ray.Keys
  {
    hide Init, Inv;
    SeenOnceForGood(jobs, actions, m, n);
    LatchNeverClears(jobs, actions, m, n);
    RunHasInv(jobs, actions, n);
    InvQuiet(jobs[n]);
    assert Next(jobs[n], actions[n], jobs[n + 1]);
    QuietStep(jobs[n], actions[n], jobs[n + 1]);
  }

  lemma QuietStep(j: Job, a: Action, k: Job)
    requires NoneUnfinished(j) && Next(j, a, k)
    ensures k.ray.Keys <= j.ray.Keys
  {
    if a.WorkerSubmits? || a.WorkerFallsBack? {
      assert Unfinished(j, a.w);
    }
  }

  /******* The history *******/

  /** Along every run the history reads as polls write it: what Ray reported
      carries its submission, and what it did not is attempt 0, pending. */
  lemma {:induction false} HistoryIsWritten(jobs: seq<Job>, actions: seq<Action>, n: nat)
    requires IsRun(jobs, actions) && n < |jobs|
    ensures WrittenByPolls(jobs[n].record.history)
  {
    hide Next, Inv, WrittenByPolls;
    if n == 0 {
      NothingWritten(jobs[0]);
    } else {
      assert Next(jobs[n - 1], actions[n - 1], jobs[n - 1 + 1]);
      HistoryIsWritten(jobs, actions, n - 1);
      RunHasInv(jobs, actions, n - 1);
      WrittenStep(jobs[n - 1], actions[n - 1], jobs[n]);
    }
  }

  lemma NothingWritten(j: Job)
    requires Init(j)
    ensures WrittenByPolls(j.record.history)
  {
  }

  lemma WrittenStep(j: Job, a: Action, k: Job)
    requires Inv(j) && WrittenByPolls(j.record.history) && Next(j, a, k)
    ensures WrittenByPolls(k.record.history)
  {
    hide WrittenByPolls;
    assert CopyIsFresh(j);
    hide Inv;
    if !IsPollStep(a) {
      hide Next;
      OthersLeavePoll(j, a, k);
    } else if a.RecordObserved? {
      hide StatusOf, Observe;
      var cjob, rjob := j.phase.cjob, j.phase.rjob;
      ObserveWrites(cjob, rjob, j.ray);
    } else if a.Act? {
      hide Decide, StatusOf;
      assert k.record == j.record;
    } else {
      hide Next;
      PollLeavesRest(j, a, k);
    }
  }

  lemma ObserveWrites(cjob: Record, rjob: Option<nat>, ray: RayStore)
    requires WrittenByPolls(cjob.history) && Answers(ray, rjob)
    ensures WrittenByPolls(Observe(cjob, rjob, StatusOf(ray, rjob)).history)
  {
  }
}
