/** cortexgrid/jobs.py, jobs_control_plane/db.py and the decisions of
    jobs_control_plane/server.py: one job's record, what a poll writes into it,
    and what a poll does about it. Attempts stand for submission ids. */
module JobRecords {
  import opened Common

  /** What Ray itself reports for a submission. */
  datatype RayStatus = RayPending | RayRunning | RaySucceeded | RayFailed | RayStopped

  predicate Terminal(status: RayStatus) {
    status.RaySucceeded? || status.RayFailed? || status.RayStopped?
  }

  datatype JobStatus = Pending | Running | Finished | Failed | Stopped

  type RayStore = map<nat, RayStatus>

  /** get_ray_job_status: a submission Ray still queues counts as running;
      only a job never submitted is pending. */
  function StatusOf(ray: RayStore, rjob: Option<nat>): JobStatus
    requires rjob.Some? ==> rjob.value in ray
  {
    if rjob.None? then Pending
    else
      match ray[rjob.value]
      case RaySucceeded => Finished
      case RayFailed => Failed
      case RayStopped => Stopped
      case RayPending => Running
      case RayRunning => Running
  }

  /** The same, as the docstring of get_ray_job_status has it: PENDING also
      while Ray itself reports PENDING. */
  function Documented(ray: RayStore, rjob: Option<nat>): JobStatus
    requires rjob.Some? ==> rjob.value in ray
  {
    if rjob.Some? && ray[rjob.value] == RayPending then Pending else StatusOf(ray, rjob)
  }

  predicate Queued(ray: RayStore, rjob: Option<nat>) {
    rjob.Some? && rjob.value in ray && ray[rjob.value] == RayPending
  }

  datatype Event = Event(attempt: nat, state: JobStatus, rayJob: Option<nat>)

  /** stop_requested, retry and history; the other columns never change. */
  datatype Record = Record(stop: bool, retry: bool, history: seq<Event>)
  {
    /** The schema's generated column: nothing left to do for the job. */
    predicate Done() {
      history != [] &&
      var last := history[|history| - 1].state;
      last == Finished || last == Stopped || (last == Failed && !retry)
    }

    /** Some event was reported by Ray. */
    ghost predicate SeenInRay() {
      Reported(history)
    }
  }

  ghost predicate Reported(history: seq<Event>) {
    exists i :: 0 <= i < |history| && history[i].rayJob.Some?
  }

  /** put_job over an existing row: the history is replaced, the latch is only
      ever set. */
  function Merge(stored: Record, saved: Record): Record {
    stored.(stop := stored.stop || saved.stop, history := saved.history)
  }

  function AttemptOf(rjob: Option<nat>): nat {
    rjob.GetOr(0)
  }

  predicate AlreadyRecorded(history: seq<Event>, rjob: Option<nat>, state: JobStatus) {
    history != [] &&
    var last := history[|history| - 1];
    last.attempt == AttemptOf(rjob) && last.state == state
  }

  /** _record_state: one more event when attempt or state changed. */
  function Observe(cjob: Record, rjob: Option<nat>, state: JobStatus): Record {
    if AlreadyRecorded(cjob.history, rjob, state) then cjob
    else cjob.(history := cjob.history + [Event(AttemptOf(rjob), state, rjob)])
  }

  /** The last state Ray reported, going back over the history. */
  function LastReported(history: seq<Event>): Option<JobStatus> {
    if history == [] then None
    else if history[|history| - 1].rayJob.Some? then Some(history[|history| - 1].state)
    else LastReported(history[..|history| - 1])
  }

  /** What the job is taken to be. With the store gone the last reported state
      stands, and what was under way died with the store. */
  function EffectiveStatus(cjob: Record, rjob: Option<nat>, status: JobStatus): JobStatus {
    var reported := LastReported(cjob.history);
    if rjob.None? && reported.Some? then
      if reported.value == Pending || reported.value == Running then Failed else reported.value
    else status
  }

  datatype Verdict = LeaveAlone | StopAttempt(attempt: nat) | Dispatch(attempt: nat)

  /** The body of the poll loop after recording; `status` is Ray's second
      answer, asked for only when no stop is requested. */
  function Decide(cjob: Record, rjob: Option<nat>, status: JobStatus): Verdict {
    if cjob.stop then if rjob.Some? then StopAttempt(rjob.value) else LeaveAlone
    else
      var effective := EffectiveStatus(cjob, rjob, status);
      if effective == Pending then Dispatch(0)
      else if effective == Failed && cjob.retry then Dispatch(AttemptOf(rjob) + 1)
      else LeaveAlone
  }

  /******* Facts about records *******/

  /** What Ray reports is never recorded as pending. */
  ghost predicate HonestHistory(history: seq<Event>) {
    forall i :: 0 <= i < |history| && history[i].rayJob.Some? ==> history[i].state != Pending
  }

  lemma {:induction false} LastReportedIff(record: Record)
    ensures LastReported(record.history).Some? <==> record.SeenInRay()
    ensures HonestHistory(record.history) && record.SeenInRay() ==> LastReported(record.history).value != Pending
    decreases |record.history|
  {
    var history := record.history;
    if history != [] && history[|history| - 1].rayJob.None? {
      LastReportedIff(record.(history := history[..|history| - 1]));
    }
  }

  /** A job that Ray has reported and that is not to be retried is never
      dispatched, whatever Ray still lists. */
  lemma SeenOnceIsNotDispatched(cjob: Record, rjob: Option<nat>, ray: RayStore)
    requires !cjob.retry && cjob.SeenInRay() && HonestHistory(cjob.history)
    requires rjob.Some? ==> rjob.value in ray
    ensures !Decide(cjob, rjob, StatusOf(ray, rjob)).Dispatch?
  {
    LastReportedIff(cjob);
  }

  ghost predicate FirstAttempt(cjob: Record, rjob: Option<nat>, verdict: Verdict) {
    verdict == Dispatch(0) && rjob.None? && !cjob.SeenInRay()
  }

  ghost predicate Retry(cjob: Record, rjob: Option<nat>, ray: RayStore, verdict: Verdict) {
    cjob.retry &&
    if rjob.Some? then rjob.value in ray && ray[rjob.value] == RayFailed && verdict == Dispatch(rjob.value + 1)
    else
      var last := LastReported(cjob.history);
      last.Some? && (last.value == Running || last.value == Failed) && verdict == Dispatch(1)
  }

  /** A dispatch is either the first attempt of a job Ray neither lists nor
      ever reported, or a retry after a failure. */
  lemma DispatchMeaning(cjob: Record, rjob: Option<nat>, ray: RayStore)
    requires HonestHistory(cjob.history)
    requires rjob.Some? ==> rjob.value in ray
    ensures var verdict := Decide(cjob, rjob, StatusOf(ray, rjob));
      verdict.Dispatch? <==> !cjob.stop && (FirstAttempt(cjob, rjob, verdict) || Retry(cjob, rjob, ray, verdict))
  {
    LastReportedIff(cjob);
  }

  /** Documentation and code agree exactly on submissions that Ray does not
      queue. */
  lemma DocumentedAgreesIff(ray: RayStore, rjob: Option<nat>)
    requires rjob.Some? ==> rjob.value in ray
    ensures Documented(ray, rjob) == StatusOf(ray, rjob) <==> !Queued(ray, rjob)
  {
  }

  /** What the poll does would be the same under the documented reading exactly
      when Ray does not queue the submission or a stop is requested; where it
      differs, a queued job, retry or not, would be dispatched afresh. */
  lemma DocumentedDecidesAlikeIff(cjob: Record, rjob: Option<nat>, ray: RayStore)
    requires rjob.Some? ==> rjob.value in ray
    ensures Decide(cjob, rjob, Documented(ray, rjob)) == Decide(cjob, rjob, StatusOf(ray, rjob)) <==>
            !Queued(ray, rjob) || cjob.stop
    ensures Queued(ray, rjob) && !cjob.stop ==>
      Decide(cjob, rjob, Documented(ray, rjob)) == Dispatch(0) && Decide(cjob, rjob, StatusOf(ray, rjob)) == LeaveAlone
  {
    DocumentedAgreesIff(ray, rjob);
  }

  lemma ObserveKeepsHonesty(cjob: Record, rjob: Option<nat>, ray: RayStore)
    requires HonestHistory(cjob.history) && (rjob.Some? ==> rjob.value in ray)
    ensures HonestHistory(Observe(cjob, rjob, StatusOf(ray, rjob)).history)
  {
  }
}
