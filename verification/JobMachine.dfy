/** jobs_control_plane/server.py: one job as the poll loop, its submission
    workers, its user and Ray move it, in any interleaving. The poll touches a
    job only through the job's own record, submissions and dict entry
    (`RayIds.CoreIdentifies`, `RayIds.PrefixMatchesOwnOnly`). */
module JobMachine {
  import opened Common
  import opened JobRecords

  /** A submission worker, from dispatch to the end of its process. */
  datatype WorkerPhase = Queued | Loaded | Failing | Ended

  datatype Worker = Worker(attempt: nat, phase: WorkerPhase)

  /** How the last cycle left this job. */
  datatype Outcome = NotOpen | StillInFlight | Handled

  /** Where the poll cycle stands with this job. `cjob` and `rjob` are the
      copies the cycle works on. */
  datatype Phase =
    | Idle
    | Reaped
    | Listed(cjob: Record)
    | Matched(cjob: Record, rjob: Option<nat>)
    | Recorded(cjob: Record, rjob: Option<nat>)
    | Passed(outcome: Outcome)

  datatype Job = Job(
    record: Record,
    ray: RayStore,
    workers: seq<Worker>,       // every worker ever dispatched for the job
    kept: Option<nat>,          // in_flight between cycles: an index into workers
    current: Option<nat>,       // in_flight of the cycle under way
    phase: Phase,
    stopAsked: set<nat>,        // attempts this cycle, or else the last one, asked Ray to stop
    stopAtReap: bool,           // the latch as this cycle began
    lateSubmissions: nat,       // submissions Ray accepted after the latch was set
    lost: bool,                 // Ray's store was lost at some point
    lostLate: bool,             // ... and after a late submission
    orphaned: bool)             // a cycle raised after it had dispatched a worker

  datatype Action =
    | Reap(seenDone: bool)
    | ListOpen
    | ListRay
    | RecordObserved
    | Act
    | EndCycle
    | RaiseCycle
    | WorkerLoads(w: nat, ok: bool)
    | WorkerFails(w: nat)
    | WorkerSubmits(w: nat, ok: bool)
    | WorkerFallsBack(w: nat, delivered: bool)
    | WorkerDies(w: nat)
    | UserStops
    | RayMoves(attempt: nat, status: RayStatus)
    | RayLoses

  predicate Live(ray: RayStore, attempt: nat) {
    attempt in ray && !Terminal(ray[attempt])
  }

  predicate Unfinished(j: Job, w: nat) {
    w < |j.workers| && !j.workers[w].phase.Ended?
  }

  /** The largest attempt Ray lists. */
  ghost predicate IsLatest(ray: RayStore, rjob: Option<nat>) {
    match rjob
    case None => ray == map[]
    case Some(n) => n in ray && forall k :: k in ray ==> k <= n
  }

  /** What Ray answers for `rjob`; asking about a lost submission raises. */
  predicate Answers(ray: RayStore, rjob: Option<nat>) {
    rjob.Some? ==> rjob.value in ray
  }

  function SetPhase(j: Job, w: nat, phase: WorkerPhase): Job
    requires w < |j.workers|
  {
    j.(workers := j.workers[w := j.workers[w].(phase := phase)])
  }

  /** Ray accepts a submission it does not hold yet, and rejects any other. */
  function Accept(j: Job, attempt: nat): Job {
    if attempt in j.ray then j
    else j.(ray := j.ray[attempt := RayPending],
            lateSubmissions := if j.record.stop then j.lateSubmissions + 1 else j.lateSubmissions)
  }

  /** Asks Ray to stop, or hands the job to a new worker. */
  function Carry(j: Job, verdict: Verdict): Job {
    match verdict
    case LeaveAlone => j
    case StopAttempt(n) => j.(stopAsked := j.stopAsked + {n})
    case Dispatch(n) => j.(workers := j.workers + [Worker(n, Queued)], current := Some(|j.workers|))
  }

  ghost predicate Enabled(j: Job, a: Action) {
    match a
    case Reap(_) => j.phase.Idle?
    case ListOpen => j.phase.Reaped?
    case ListRay => j.phase.Listed?
    case RecordObserved => j.phase.Matched? && Answers(j.ray, j.phase.rjob)
    case Act => j.phase.Recorded? && Answers(j.ray, j.phase.rjob)
    case EndCycle => j.phase.Passed?
    case RaiseCycle => !j.phase.Idle?
    case WorkerLoads(w, _) => w < |j.workers| && j.workers[w].phase.Queued?
    case WorkerFails(w) => w < |j.workers| && j.workers[w].phase.Loaded?
    case WorkerSubmits(w, _) => w < |j.workers| && j.workers[w].phase.Loaded?
    case WorkerFallsBack(w, _) => w < |j.workers| && j.workers[w].phase.Failing?
    case WorkerDies(w) => Unfinished(j, w)
    case UserStops => true
    case RayMoves(k, status) => Live(j.ray, k)
    case RayLoses => true
  }

  predicate IsPollStep(a: Action) {
    a.Reap? || a.ListOpen? || a.ListRay? || a.RecordObserved? || a.Act? || a.EndCycle? || a.RaiseCycle?
  }

  ghost predicate Next(j: Job, a: Action, k: Job) {
    Enabled(j, a) && if IsPollStep(a) then PollNext(j, a, k) else OtherNext(j, a, k)
  }

  ghost predicate PollNext(j: Job, a: Action, k: Job)
    requires Enabled(j, a) && IsPollStep(a)
  {
    match a
    case Reap(seenDone) =>
      // A finished worker's future may still read as not done.
      var gone := j.kept.Some? && seenDone && !Unfinished(j, j.kept.value);
      k == j.(phase := Reaped, current := if gone then None else j.kept, stopAtReap := j.record.stop, stopAsked := {})
    case ListOpen =>
      k == j.(phase := if j.record.Done() then Passed(NotOpen) else Listed(j.record))
    case ListRay =>
      if j.current.Some? then k == j.(phase := Passed(StillInFlight))
      else exists rjob :: IsLatest(j.ray, rjob) && k == j.(phase := Matched(j.phase.cjob, rjob))
    case RecordObserved =>
      var cjob, rjob := j.phase.cjob, j.phase.rjob;
      var state := StatusOf(j.ray, rjob);
      var seen := Observe(cjob, rjob, state);
      k == j.(phase := Recorded(seen, rjob),
              record := if AlreadyRecorded(cjob.history, rjob, state) then j.record else Merge(j.record, seen))
    case Act =>
      k == Carry(j, Decide(j.phase.cjob, j.phase.rjob, StatusOf(j.ray, j.phase.rjob))).(phase := Passed(Handled))
    case EndCycle => k == j.(phase := Idle, kept := j.current)
    case RaiseCycle =>
      // poll_once returned nothing, so the dict keeps what it held before.
      k == j.(phase := Idle, orphaned := j.orphaned || (j.current.Some? && j.current != j.kept))
  }

  ghost predicate OtherNext(j: Job, a: Action, k: Job)
    requires Enabled(j, a) && !IsPollStep(a)
  {
    match a
    case WorkerLoads(w, ok) =>
      k == SetPhase(j, w, if !ok then Failing else if j.record.stop then Ended else Loaded)
    case WorkerFails(w) => k == SetPhase(j, w, Failing)
    case WorkerSubmits(w, ok) =>
      // A rejection raises; so may a call that Ray accepted.
      var accepted := j.workers[w].attempt !in j.ray;
      k == SetPhase(Accept(j, j.workers[w].attempt), w, if accepted && ok then Ended else Failing)
    case WorkerFallsBack(w, delivered) =>
      k == SetPhase(if delivered then Accept(j, j.workers[w].attempt) else j, w, Ended)
    case WorkerDies(w) => k == SetPhase(j, w, Ended)
    case UserStops => k == j.(record := j.record.(stop := true))
    case RayMoves(n, status) => k == j.(ray := j.ray[n := status])
    case RayLoses => k == j.(ray := map[], lost := true, lostLate := j.lostLate || j.lateSubmissions > 0)
  }

  /** A job just recorded: never submitted, no worker, no cycle under way. */
  ghost predicate Init(j: Job) {
    && j.record.history == [] && j.ray == map[] && j.workers == []
    && j.kept == None && j.current == None && j.phase == Idle
    && j.stopAsked == {} && j.lateSubmissions == 0 && !j.lost && !j.lostLate && !j.orphaned
    && !j.record.stop && !j.stopAtReap
  }

  ghost predicate IsRun(jobs: seq<Job>, actions: seq<Action>) {
    && |jobs| == |actions| + 1
    && Init(jobs[0])
    && forall i :: 0 <= i < |actions| ==> Next(jobs[i], actions[i], jobs[i + 1])
  }

  /******* What always holds *******/

  /** The cycle's copy tells the truth about the record. */
  ghost predicate CopyIsFresh(j: Job) {
    (j.phase.Listed? || j.phase.Matched? || j.phase.Recorded?) ==>
      && j.phase.cjob.history == j.record.history
      && j.phase.cjob.retry == j.record.retry
      && (j.phase.cjob.stop ==> j.record.stop)
      && (j.stopAtReap ==> j.phase.cjob.stop)
      && (!j.phase.Recorded? ==> !j.phase.cjob.Done())
  }

  ghost predicate IndicesValid(j: Job) {
    && (j.kept.Some? ==> j.kept.value < |j.workers|)
    && (j.current.Some? ==> j.current.value < |j.workers|)
  }

  ghost predicate Basics(j: Job) {
    && CopyIsFresh(j)
    && IndicesValid(j)
    && HonestHistory(j.record.history)
    && StopIsLatched(j)
    && EntryInStep(j)
  }

  ghost predicate StopIsLatched(j: Job) {
    (j.stopAtReap ==> j.record.stop) && (!j.record.stop ==> j.lateSubmissions == 0)
  }

  /** The cycle's entry is the one kept, or none, until the job is handled. */
  ghost predicate EntryInStep(j: Job) {
    && (j.phase.Idle? || (j.current.Some? && j.current == j.kept) || j.current.None? || j.phase == Passed(Handled))
    && (j.phase.Matched? || j.phase.Recorded? ==> j.current.None?)
  }

  lemma CopyKeptByPoll(j: Job, a: Action, k: Job)
    requires CopyIsFresh(j) && StopIsLatched(j) && Next(j, a, k) && IsPollStep(a) && !a.RecordObserved? && !a.Act?
    ensures CopyIsFresh(k) && StopIsLatched(k)
  {
    hide Observe, StatusOf, AlreadyRecorded;
    if !a.ListOpen? && !a.ListRay? {
      hide Record.Done;
    }
  }

  lemma CopyKeptByRecording(j: Job, a: Action, k: Job)
    requires CopyIsFresh(j) && StopIsLatched(j) && Next(j, a, k) && (a.RecordObserved? || a.Act?)
    ensures CopyIsFresh(k) && StopIsLatched(k)
  {
    hide Decide, StatusOf;
  }

  /** What the workers, the user and Ray leave alone: the poll's state, all of
      the record but the latch, and how many workers there are. */
  ghost predicate PollUntouched(j: Job, k: Job) {
    && k.phase == j.phase && k.kept == j.kept && k.current == j.current
    && k.stopAsked == j.stopAsked && k.stopAtReap == j.stopAtReap && k.orphaned == j.orphaned
    && k.record == j.record.(stop := k.record.stop) && (j.record.stop ==> k.record.stop)
    && |k.workers| == |j.workers|
    && (!k.record.stop ==> k.lateSubmissions == j.lateSubmissions)
  }

  lemma OthersLeavePoll(j: Job, a: Action, k: Job)
    requires Next(j, a, k) && !IsPollStep(a)
    ensures PollUntouched(j, k)
  {
    if !a.UserStops? && !a.RayMoves? && !a.RayLoses? {
      hide Enabled;
      assert k == j.(workers := k.workers, ray := k.ray, lateSubmissions := k.lateSubmissions);
    }
  }

  /** What the poll leaves alone until it acts: all but its own state, and the
      record but for a history that grows. */
  ghost predicate RestUntouched(j: Job, k: Job) {
    && k.workers == j.workers && k.ray == j.ray && k.lateSubmissions == j.lateSubmissions
    && k.lost == j.lost && k.lostLate == j.lostLate
    && k.record == j.record.(history := k.record.history) && j.record.history <= k.record.history
  }

  lemma PollLeavesRest(j: Job, a: Action, k: Job)
    requires CopyIsFresh(j) && Next(j, a, k) && IsPollStep(a) && !a.Act?
    ensures RestUntouched(j, k)
    ensures !a.RecordObserved? ==> k.record == j.record
  {
    hide Decide, StatusOf;
    if !a.RecordObserved? {
      hide Observe, AlreadyRecorded;
      assert k.record == j.record;
    }
  }

  lemma UntouchedKeepsCopy(j: Job, k: Job)
    requires CopyIsFresh(j) && StopIsLatched(j) && PollUntouched(j, k)
    ensures CopyIsFresh(k) && StopIsLatched(k)
  {
  }

  lemma EntryKept(j: Job, a: Action, k: Job)
    requires IndicesValid(j) && EntryInStep(j) && Next(j, a, k)
    ensures IndicesValid(k) && EntryInStep(k)
  {
    if IsPollStep(a) {
      EntryKeptByPoll(j, a, k);
    } else {
      hide Next;
      OthersLeavePoll(j, a, k);
    }
  }

  lemma EntryKeptByPoll(j: Job, a: Action, k: Job)
    requires IndicesValid(j) && EntryInStep(j) && Next(j, a, k) && IsPollStep(a)
    ensures IndicesValid(k) && EntryInStep(k)
  {
    hide Decide, Observe, StatusOf, AlreadyRecorded, Merge, IsLatest;
    if a.Act? {
      CarryKeepsIndices(j, Decide(j.phase.cjob, j.phase.rjob, StatusOf(j.ray, j.phase.rjob)));
      hide Carry;
    } else {
      hide Carry;
      assert k.workers == j.workers;
    }
  }

  lemma CarryKeepsIndices(j: Job, verdict: Verdict)
    requires IndicesValid(j)
    ensures IndicesValid(Carry(j, verdict))
  {
  }

  lemma HonestyKept(j: Job, a: Action, k: Job)
    requires CopyIsFresh(j) && HonestHistory(j.record.history) && Next(j, a, k)
    ensures HonestHistory(k.record.history)
  {
    hide Decide, HonestHistory;
    if a.RecordObserved? {
      ObserveKeepsHonesty(j.phase.cjob, j.phase.rjob, j.ray);
    }
  }

  lemma BasicsKept(j: Job, a: Action, k: Job)
    requires Basics(j) && Next(j, a, k)
    ensures Basics(k)
  {
    hide Next, CopyIsFresh, StopIsLatched, IndicesValid, EntryInStep, HonestHistory;
    if !IsPollStep(a) {
      OthersLeavePoll(j, a, k);
      UntouchedKeepsCopy(j, k);
    } else if a.RecordObserved? || a.Act? {
      CopyKeptByRecording(j, a, k);
    } else {
      CopyKeptByPoll(j, a, k);
    }
    EntryKept(j, a, k);
    HonestyKept(j, a, k);
  }
}
