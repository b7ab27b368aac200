/** jobs_control_plane/server.py: runs built step by step. What one cycle of
    `ControlPlane.Poller` does to a job is a run of its machine; and the
    at-most-one promise of `JobTheorems` has to except runs in which a cycle
    lost track of a worker and Ray lost its store, for one has two live
    attempts. */
module JobRuns {
  import opened Common
  import opened JobRecords
  import opened JobMachine
  import opened ControlPlane

  ghost predicate Reached(j: Job) {
    exists jobs, actions :: IsRun(jobs, actions) && jobs[|jobs| - 1] == j
  }

  lemma Take(j: Job, a: Action, k: Job)
    requires Reached(j) && Next(j, a, k)
    ensures Reached(k)
  {
    hide Next;
    var jobs, actions :| IsRun(jobs, actions) && jobs[|jobs| - 1] == j;
    var longer, more := jobs + [k], actions + [a];
    forall i | 0 <= i < |more| ensures Next(longer[i], more[i], longer[i + 1]) {
      if i < |actions| {
        assert Next(jobs[i], actions[i], jobs[i + 1]);
      }
    }
    assert IsRun(longer, more) && longer[|longer| - 1] == k;
  }

  /** A cycle begins, and finds no worker of the job unfinished. */
  function Begun(j: Job): Job {
    j.(current := None, stopAtReap := j.record.stop, stopAsked := {})
  }

  /** A cycle that nothing interrupts, past a job it does not hold in flight:
      it ends with what `JobRecords` says, or raises after acting. */
  function AfterCycle(j: Job, rjob: Option<nat>, raises: bool): Job
    requires Answers(j.ray, rjob)
  {
    var status := StatusOf(j.ray, rjob);
    var seen := Observe(j.record, rjob, status);
    var recorded := Begun(j).(record := seen, phase := Recorded(seen, rjob));
    CycleOver(Carry(recorded, Decide(seen, rjob, status)).(phase := Passed(Handled)), raises)
  }

  lemma CycleReaches(j: Job, rjob: Option<nat>, raises: bool)
    requires Reached(j) && j.phase.Idle? && !j.record.Done()
    requires j.kept.Some? ==> !Unfinished(j, j.kept.value)
    requires IsLatest(j.ray, rjob)
    ensures Reached(AfterCycle(j, rjob, raises))
  {
    hide Reached, Next, Decide, Observe, Carry, CycleOver;
    var matched := Begun(j).(phase := Matched(j.record, rjob));
    ListingReaches(j, rjob, matched);
    var status := StatusOf(j.ray, rjob);
    var seen := Observe(j.record, rjob, status);
    var recorded := matched.(record := seen, phase := Recorded(seen, rjob));
    RecordingReaches(matched, recorded);
    var acted := Carry(recorded, Decide(seen, rjob, status)).(phase := Passed(Handled));
    ActingReaches(recorded, acted);
    var ended := CycleOver(acted, raises);
    EndingReaches(acted, raises, ended);
  }

  function CycleOver(j: Job, raises: bool): Job {
    if raises then j.(phase := Idle, orphaned := j.orphaned || (j.current.Some? && j.current != j.kept))
    else j.(phase := Idle, kept := j.current)
  }

  lemma ListingReaches(j: Job, rjob: Option<nat>, matched: Job)
    requires Reached(j) && j.phase.Idle? && !j.record.Done() && IsLatest(j.ray, rjob)
    requires j.kept.Some? ==> !Unfinished(j, j.kept.value)
    requires matched == Begun(j).(phase := Matched(j.record, rjob))
    ensures Reached(matched)
  {
    hide Reached;
    var reaped := Begun(j).(phase := Reaped);
    Take(j, Reap(true), reaped);
    var listed := reaped.(phase := Listed(j.record));
    Take(reaped, ListOpen, listed);
    Take(listed, ListRay, matched);
  }

  lemma RecordingReaches(j: Job, k: Job)
    requires Reached(j) && j.phase.Matched? && Answers(j.ray, j.phase.rjob) && j.phase.cjob == j.record
    requires var seen := Observe(j.record, j.phase.rjob, StatusOf(j.ray, j.phase.rjob));
             k == j.(record := seen, phase := Recorded(seen, j.phase.rjob))
    ensures Reached(k)
  {
    hide Reached;
    Take(j, RecordObserved, k);
  }

  lemma ActingReaches(j: Job, k: Job)
    requires Reached(j) && j.phase.Recorded? && Answers(j.ray, j.phase.rjob)
    requires k == Carry(j, Decide(j.phase.cjob, j.phase.rjob, StatusOf(j.ray, j.phase.rjob))).(phase := Passed(Handled))
    ensures Reached(k)
  {
    hide Reached, Decide;
    Take(j, Act, k);
  }

  lemma EndingReaches(j: Job, raises: bool, k: Job)
    requires Reached(j) && j.phase.Passed?
    requires k == CycleOver(j, raises)
    ensures Reached(k)
  {
    hide Reached;
    if raises {
      Take(j, RaiseCycle, k);
    } else {
      Take(j, EndCycle, k);
    }
  }

  /** A cycle past a job that is done, or that a worker has in hand. */
  lemma PassingReaches(j: Job, inFlight: bool) returns (k: Job)
    requires Reached(j) && j.phase.Idle? && (j.record.Done() || inFlight)
    requires inFlight <==> j.kept.Some? && Unfinished(j, j.kept.value)
    ensures Reached(k) && k.phase.Idle? && k.record == j.record && k.ray == j.ray && k.workers == j.workers
    ensures k.stopAsked == {} && k.kept == if inFlight then j.kept else None
  {
    hide Reached;
    var reaped := j.(phase := Reaped, current := if inFlight then j.kept else None, stopAtReap := j.record.stop,
                     stopAsked := {});
    Take(j, Reap(true), reaped);
    var passed;
    if j.record.Done() {
      passed := reaped.(phase := Passed(NotOpen));
      Take(reaped, ListOpen, passed);
    } else {
      var listed := reaped.(phase := Listed(j.record));
      Take(reaped, ListOpen, listed);
      passed := reaped.(phase := Passed(StillInFlight));
      Take(listed, ListRay, passed);
    }
    EndingReaches(passed, false, CycleOver(passed, false));
    k := CycleOver(passed, false);
  }

  /** What `ControlPlane.Poller.PollOnce` answers for a job is where the job's
      machine gets to by one uninterrupted cycle. */
  lemma PollIsACycle(j: Job, inFlight: bool, after: Record, verdict: Verdict) returns (k: Job)
    requires Reached(j) && j.phase.Idle?
    requires inFlight <==> j.kept.Some? && Unfinished(j, j.kept.value)
    requires PolledAs(j.record, j.ray, inFlight, after, verdict)
    ensures Reached(k)
    ensures k.record == after && k.ray == j.ray
    ensures k.phase.Idle? && k.stopAsked == if verdict.StopAttempt? then {verdict.attempt} else {}
    ensures k.workers == if verdict.Dispatch? then j.workers + [Worker(verdict.attempt, Queued)] else j.workers
    ensures k.kept == if verdict.Dispatch? then Some(|j.workers|) else if inFlight then j.kept else None
  {
    hide Reached, Decide, Observe, AfterCycle, StatusOf;
    if j.record.Done() || inFlight {
      k := PassingReaches(j, inFlight);
    } else {
      var rjob :|
        IsLatest(j.ray, rjob) && after == Observe(j.record, rjob, StatusOf(j.ray, rjob)) &&
        verdict == Decide(after, rjob, StatusOf(j.ray, rjob));
      CycleReaches(j, rjob, false);
      AfterCycleIs(j, rjob);
      k := AfterCycle(j, rjob, false);
    }
  }

  lemma AfterCycleIs(j: Job, rjob: Option<nat>)
    requires Answers(j.ray, rjob)
    ensures var k, seen := AfterCycle(j, rjob, false), Observe(j.record, rjob, StatusOf(j.ray, rjob));
      var verdict := Decide(seen, rjob, StatusOf(j.ray, rjob));
      && k.record == seen && k.ray == j.ray && k.phase.Idle?
      && k.stopAsked == (if verdict.StopAttempt? then {verdict.attempt} else {})
      && k.workers == (if verdict.Dispatch? then j.workers + [Worker(verdict.attempt, Queued)] else j.workers)
      && k.kept == if verdict.Dispatch? then Some(|j.workers|) else None
  {
    hide Decide, Observe, StatusOf;
  }

  function Submitted(j: Job, w: nat): Job
    requires w < |j.workers|
  {
    SetPhase(Accept(j, j.workers[w].attempt), w, Ended)
  }

  lemma SubmissionReaches(j: Job, w: nat)
    requires Reached(j) && w < |j.workers| && j.workers[w].phase.Queued?
    requires !j.record.stop && j.workers[w].attempt !in j.ray
    ensures Reached(Submitted(j, w))
  {
    var loaded := SetPhase(j, w, Loaded);
    Take(j, WorkerLoads(w, true), loaded);
    assert loaded.workers[w := Worker(j.workers[w].attempt, Ended)] == Submitted(j, w).workers;
    Take(loaded, WorkerSubmits(w, true), Submitted(j, w));
  }

  function Start(retry: bool): Job {
    Job(Record(false, retry, []), map[], [], None, None, Idle, {}, false, 0, false, false, false)
  }

  /** The first cycle dispatches attempt 0 and then raises. */
  function LostTrack(): Job {
    Start(true).(record := Record(false, true, [Event(0, Pending, None)]), workers := [Worker(0, Queued)],
             current := Some(0), orphaned := true)
  }

  /** The second dispatches attempt 0 again; this worker submits. */
  function First(): Job {
    LostTrack().(workers := [Worker(0, Queued), Worker(0, Ended)], kept := Some(1), current := Some(1),
                 ray := map[0 := RayPending])
  }

  /** The third sees it running. */
  function Seen(): Job {
    First().(record := Record(false, true, [Event(0, Pending, None), Event(0, Running, Some(0))]),
             kept := None, current := None)
  }

  /** Ray loses its store, and the fourth dispatches attempt 1. */
  function Retried(): Job {
    var history := [Event(0, Pending, None), Event(0, Running, Some(0))];
    Seen().(record := Record(false, true, history + [Event(0, Pending, None)]), lost := true, ray := map[],
            workers := [Worker(0, Queued), Worker(0, Ended), Worker(1, Queued)], kept := Some(2), current := Some(2))
  }

  lemma StartReached(retry: bool)
    ensures Reached(Start(retry))
  {
    var start := Start(retry);
    assert IsRun([start], []) && [start][|[start]| - 1] == start;
  }

  lemma LostTrackReached()
    ensures Reached(LostTrack())
  {
    hide Reached;
    var start := Start(true);
    StartReached(true);
    CycleReaches(start, None, true);
    assert AfterCycle(start, None, true) == LostTrack();
  }

  lemma FirstReached()
    ensures Reached(First())
  {
    hide Reached;
    LostTrackReached();
    var j := LostTrack();
    CycleReaches(j, None, false);
    var again := AfterCycle(j, None, false);
    assert again.workers == [Worker(0, Queued), Worker(0, Queued)];
    SubmissionReaches(again, 1);
    assert Submitted(again, 1).workers == First().workers;
    assert Submitted(again, 1) == First();
  }

  lemma SeenReached()
    ensures Reached(Seen())
  {
    hide Reached;
    FirstReached();
    CycleReaches(First(), Some(0), false);
    assert AfterCycle(First(), Some(0), false) == Seen();
  }

  lemma RetriedReached()
    ensures Reached(Retried())
  {
    hide Reached;
    SeenReached();
    var gone := Seen().(ray := map[], lost := true);
    Take(Seen(), RayLoses, gone);
    LastIsRunning(gone.record.history);
    CycleReaches(gone, None, false);
    assert AfterCycle(gone, None, false) == Retried();
  }

  /** A run with two live attempts of one job: a lost worker of attempt 0
      submits after Ray has forgotten attempt 0 and accepted attempt 1. */
  lemma TwoLiveAttempts() returns (j: Job)
    ensures Reached(j) && j.lost && j.orphaned
    ensures Live(j.ray, 0) && Live(j.ray, 1)
  {
    hide Reached;
    RetriedReached();
    SubmissionReaches(Retried(), 2);
    var second := Submitted(Retried(), 2);
    SubmissionReaches(second, 0);
    j := Submitted(second, 0);
  }

  /******* The documented reading of a queued submission *******/

  /** A job dispatched for the first time. */
  function Dispatched(retry: bool): Job {
    Start(retry).(record := Record(false, retry, [Event(0, Pending, None)]), workers := [Worker(0, Queued)],
                  kept := Some(0), current := Some(0))
  }

  lemma DispatchedReached(retry: bool)
    ensures Reached(Dispatched(retry))
  {
    hide Reached;
    StartReached(retry);
    CycleReaches(Start(retry), None, false);
    assert AfterCycle(Start(retry), None, false) == Dispatched(retry);
  }

  /** A state that nothing was lost before, of a job without retry that Ray has
      reported and still queues. The poll leaves it alone; under the documented
      reading the next cycle would dispatch it again, against
      `JobTheorems.SeenOnceForGood`. */
  lemma DocumentedReadingBreaksFinality() returns (j: Job)
    ensures Reached(j) && j.phase.Idle? && !j.lost && !j.orphaned
    ensures !j.record.retry && !j.record.stop && j.record.SeenInRay()
    ensures Live(j.ray, 0) && IsLatest(j.ray, Some(0)) && forall w: nat :: !Unfinished(j, w)
    ensures var status := StatusOf(j.ray, Some(0));
            Decide(Observe(j.record, Some(0), status), Some(0), status) == LeaveAlone
    ensures var status := Documented(j.ray, Some(0));
            Decide(Observe(j.record, Some(0), status), Some(0), status) == Dispatch(0)
  {
    hide Reached;
    DispatchedReached(false);
    SubmissionReaches(Dispatched(false), 0);
    var queued := Submitted(Dispatched(false), 0);
    CycleReaches(queued, Some(0), false);
    j := AfterCycle(queued, Some(0), false);
    assert j.record.history[1].rayJob.Some?;
    DocumentedDecidesAlikeIff(Observe(j.record, Some(0), StatusOf(j.ray, Some(0))), Some(0), j.ray);
    DocumentedDecidesAlikeIff(Observe(j.record, Some(0), Documented(j.ray, Some(0))), Some(0), j.ray);
  }

  /******* Two late submissions *******/

  /** The bound of `JobTheorems.StopIsHeeded` is met: a worker that read the
      latch before it was set submits, is told of a failure, and its fallback
      reaches a Ray that has forgotten the first submission. */
  lemma TwoLateSubmissions() returns (j: Job)
    ensures Reached(j) && !j.orphaned && j.lostLate && j.lateSubmissions == 2
  {
    hide Reached;
    DispatchedReached(false);
    var loaded := SetPhase(Dispatched(false), 0, Loaded);
    Take(Dispatched(false), WorkerLoads(0, true), loaded);
    var asked := loaded.(record := loaded.record.(stop := true));
    Take(loaded, UserStops, asked);
    var failing := SetPhase(Accept(asked, 0), 0, Failing);
    Take(asked, WorkerSubmits(0, false), failing);
    var gone := failing.(ray := map[], lost := true, lostLate := true);
    Take(failing, RayLoses, gone);
    j := SetPhase(Accept(gone, 0), 0, Ended);
    Take(gone, WorkerFallsBack(0, true), j);
  }

  /** Without any loss of Ray's store, a lost worker can bring the second: the
      cycle under way read the job before the stop, sees the first one fail and
      dispatches its retry. This meets the bound of
      `JobStops.LateSubmissionsBounded`. */
  lemma TwoLateByLostWorker() returns (j: Job)
    ensures Reached(j) && j.orphaned && !j.lost && j.lateSubmissions == 2
  {
    hide Reached;
    var stopped := StoppedMidCycle();
    var submitted := SetPhase(Accept(stopped, 0), 0, Ended);
    Take(stopped, WorkerSubmits(0, true), submitted);
    var failed := submitted.(ray := map[0 := RayFailed]);
    Take(submitted, RayMoves(0, RayFailed), failed);
    var matched := failed.(phase := Matched(failed.phase.cjob, Some(0)));
    Take(failed, ListRay, matched);
    j := RetriedAfterStop(matched);
  }

  /** A cycle that has dispatched raises; its worker loads; the next cycle
      reads the job, and the user stops it. */
  lemma StoppedMidCycle() returns (j: Job)
    ensures Reached(j) && j.orphaned && !j.lost && j.lateSubmissions == 0 && j.ray == map[] && j.current == None
    ensures j.workers == [Worker(0, Loaded)] && j.record.stop && j.record.retry
    ensures j.phase == Listed(j.record.(stop := false)) && j.record.history == [Event(0, Pending, None)]
  {
    hide Reached;
    LostTrackReached();
    var loaded := SetPhase(LostTrack(), 0, Loaded);
    Take(LostTrack(), WorkerLoads(0, true), loaded);
    var reaped := loaded.(phase := Reaped, current := None, stopAtReap := false, stopAsked := {});
    Take(loaded, Reap(true), reaped);
    var listed := reaped.(phase := Listed(reaped.record));
    Take(reaped, ListOpen, listed);
    j := listed.(record := listed.record.(stop := true));
    Take(listed, UserStops, j);
  }

  /** The failure is recorded, the retry dispatched, and its fallback, after a
      worker that could not read the job, reaches Ray. */
  lemma RetriedAfterStop(matched: Job) returns (j: Job)
    requires Reached(matched) && matched.orphaned && !matched.lost && matched.lateSubmissions == 1
    requires matched.ray == map[0 := RayFailed] && matched.workers == [Worker(0, Ended)] && matched.record.stop
    requires matched.phase.Matched? && matched.phase.rjob == Some(0)
    requires !matched.phase.cjob.stop && matched.phase.cjob.retry
    requires matched.phase.cjob.history == [Event(0, Pending, None)]
    ensures Reached(j) && j.orphaned && !j.lost && j.lateSubmissions == 2
  {
    hide Reached;
    var seen := Observe(matched.phase.cjob, Some(0), Failed);
    var recorded := matched.(phase := Recorded(seen, Some(0)), record := Merge(matched.record, seen));
    Take(matched, RecordObserved, recorded);
    var acted := Carry(recorded, Dispatch(1)).(phase := Passed(Handled));
    assert Decide(seen, Some(0), Failed) == Dispatch(1);
    Take(recorded, Act, acted);
    var failing := SetPhase(acted, 1, Failing);
    Take(acted, WorkerLoads(1, false), failing);
    j := SetPhase(Accept(failing, 1), 1, Ended);
    Take(failing, WorkerFallsBack(1, true), j);
  }

  /******* A job dispatched although it is done *******/

  /** With a worker lost and Ray's store lost, `JobTheorems.DoneForGood` fails:
      between recording that the job has finished and acting on it, the store
      is lost and the lost worker brings the attempt back, which fails. */
  lemma DoneJobDispatchedAgain() returns (j: Job, k: Job)
    ensures Reached(j) && j.lost && j.orphaned && j.record.Done()
    ensures Next(j, Act, k) && |k.workers| == |j.workers| + 1
  {
    hide Reached;
    FirstReached();
    var finished := First().(ray := map[0 := RaySucceeded]);
    Take(First(), RayMoves(0, RaySucceeded), finished);
    var matched := Begun(finished).(phase := Matched(finished.record, Some(0)));
    ListingReaches(finished, Some(0), matched);
    var seen := Observe(finished.record, Some(0), Finished);
    var recorded := matched.(phase := Recorded(seen, Some(0)), record := seen);
    RecordingReaches(matched, recorded);
    var gone := recorded.(ray := map[], lost := true);
    Take(recorded, RayLoses, gone);
    SubmissionReaches(gone, 0);
    var back := Submitted(gone, 0);
    j := back.(ray := map[0 := RayFailed]);
    Take(back, RayMoves(0, RayFailed), j);
    assert Decide(seen, Some(0), Failed) == Dispatch(1);
    k := Carry(j, Dispatch(1)).(phase := Passed(Handled));
  }

  lemma LastIsRunning(history: seq<Event>)
    requires history == [Event(0, Pending, None), Event(0, Running, Some(0))]
    ensures LastReported(history + [Event(0, Pending, None)]) == Some(Running)
  {
    var longer := history + [Event(0, Pending, None)];
    assert longer[..|longer| - 1] == history;
  }
}
