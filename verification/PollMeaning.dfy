/** jobs_control_plane/server.py: what one poll makes of one job, told by what
    Ray holds and by the job's own record alone. */
module PollMeaning {
  import opened Common
  import opened JobRecords

  function Last(history: seq<Event>): Event
    requires history != []
  {
    history[|history| - 1]
  }

  /** list_open_jobs: nothing came of the job yet, or it is to be retried. */
  ghost predicate Open(record: Record) {
    record.history == [] ||
    var state := Last(record.history).state;
    state == Pending || state == Running || (state == Failed && record.retry)
  }

  ghost predicate Largest(store: RayStore, n: nat) {
    n in store && forall k :: k in store ==> k <= n
  }

  /** How Ray's word for a submission is written down. */
  ghost predicate StateTold(status: RayStatus, state: JobStatus) {
    && (status == RaySucceeded <==> state == Finished)
    && (status == RayFailed <==> state == Failed)
    && (status == RayStopped <==> state == Stopped)
    && (status == RayPending || status == RayRunning <==> state == Running)
  }

  /** The event is about the largest attempt Ray holds, or about none. */
  ghost predicate TellsLatest(event: Event, store: RayStore) {
    if store == map[] then event.attempt == 0 && event.state == Pending
    else Largest(store, event.attempt) && StateTold(store[event.attempt], event.state)
  }

  /** The record's last event tells what Ray holds; it is a new one only if the
      last one did not. */
  ghost predicate RecordedAsTold(before: Record, store: RayStore, after: Record) {
    && after.stop == before.stop && after.retry == before.retry
    && after.history != [] && TellsLatest(Last(after.history), store)
    && (after.history == before.history || IsOneMore(before.history, store, after.history))
  }

  ghost predicate IsOneMore(before: seq<Event>, store: RayStore, after: seq<Event>)
    requires after != []
  {
    && after == before + [Last(after)]
    && Last(after).rayJob == (if store == map[] then None else Some(Last(after).attempt))
    && (before == [] || Last(before).attempt != Last(after).attempt || Last(before).state != Last(after).state)
  }

  ghost predicate NeverReported(history: seq<Event>) {
    forall i :: 0 <= i < |history| ==> history[i].rayJob == None
  }

  /** The last state that Ray itself reported. */
  ghost predicate ReportedLast(history: seq<Event>, state: JobStatus) {
    exists i ::
      0 <= i < |history| && history[i].rayJob.Some? && history[i].state == state && NeverReported(history[i + 1..])
  }

  /** Attempt `n` is handed to a worker: the first one, or the next one of a job
      to be retried, when Ray says that the last one failed or when Ray has
      forgotten one that was under way or had failed. */
  ghost predicate Submits(before: Record, store: RayStore, n: nat) {
    !before.stop &&
    if store != map[] then
      before.retry && n > 0 && Largest(store, n - 1) && store[n - 1] == RayFailed
    else if NeverReported(before.history) then n == 0
    else
      && before.retry && n == 1
      && (ReportedLast(before.history, Pending) || ReportedLast(before.history, Running)
          || ReportedLast(before.history, Failed))
  }

  ghost predicate AsksToStop(before: Record, store: RayStore, n: nat) {
    before.stop && Largest(store, n)
  }

  lemma OpenIffNotDone(record: Record)
    ensures Open(record) <==> !record.Done()
  {
  }

  lemma StatusTold(store: RayStore, n: nat)
    requires n in store
    ensures StateTold(store[n], StatusOf(store, Some(n))) && StatusOf(store, None) == Pending
  {
  }

  lemma {:induction false} LastReportedMeaning(history: seq<Event>)
    ensures LastReported(history) == None <==> NeverReported(history)
    ensures LastReported(history).Some? ==>
      forall state :: ReportedLast(history, state) <==> state == LastReported(history).value
    decreases |history|
  {
    if history != [] {
      var last := |history| - 1;
      var rest := history[..last];
      LastReportedMeaning(rest);
      if history[last].rayJob.Some? {
        assert history[last + 1..] == [];
        forall i | 0 <= i < last && history[i].rayJob.Some? ensures !NeverReported(history[i + 1..]) {
          assert history[i + 1..][last - i - 1] == history[last];
        }
      } else {
        forall state ensures ReportedLast(history, state) <==> ReportedLast(rest, state) {
          SameReported(history, state);
        }
      }
    }
  }

  lemma SameReported(history: seq<Event>, state: JobStatus)
    requires history != [] && history[|history| - 1].rayJob.None?
    ensures ReportedLast(history, state) <==> ReportedLast(history[..|history| - 1], state)
  {
    var last := |history| - 1;
    var rest := history[..last];
    forall i | 0 <= i < last && history[i].rayJob.Some?
      ensures NeverReported(history[i + 1..]) <==> NeverReported(rest[i + 1..]) {
      assert history[i + 1..] == rest[i + 1..] + [history[last]];
    }
  }

  /** Recording does not change what Ray reported last while Ray holds nothing. */
  lemma ReportedAfterRecording(before: Record, after: Record)
    requires after == Observe(before, None, Pending)
    ensures LastReported(after.history) == LastReported(before.history)
  {
    if after != before {
      assert after.history[..|after.history| - 1] == before.history;
    }
  }

  /** What a poll records and does, by Ray's words. */
  lemma PollMeans(before: Record, store: RayStore, rjob: Option<nat>, n: nat)
    requires rjob == None <==> store == map[]
    requires rjob.Some? ==> Largest(store, rjob.value)
    ensures var status := StatusOf(store, rjob);
            var after := Observe(before, rjob, status);
            var verdict := Decide(after, rjob, status);
      && RecordedAsTold(before, store, after)
      && (verdict == Dispatch(n) <==> Submits(before, store, n))
      && (verdict == StopAttempt(n) <==> AsksToStop(before, store, n))
  {
    RecordingMeans(before, store, rjob);
    VerdictMeans(before, store, rjob, n);
  }

  lemma RecordingMeans(before: Record, store: RayStore, rjob: Option<nat>)
    requires rjob == None <==> store == map[]
    requires rjob.Some? ==> Largest(store, rjob.value)
    ensures RecordedAsTold(before, store, Observe(before, rjob, StatusOf(store, rjob)))
  {
    if rjob.Some? {
      StatusTold(store, rjob.value);
    }
  }

  lemma VerdictMeans(before: Record, store: RayStore, rjob: Option<nat>, n: nat)
    requires rjob == None <==> store == map[]
    requires rjob.Some? ==> Largest(store, rjob.value)
    ensures var status := StatusOf(store, rjob);
            var verdict := Decide(Observe(before, rjob, status), rjob, status);
      && (verdict == Dispatch(n) <==> Submits(before, store, n))
      && (verdict == StopAttempt(n) <==> AsksToStop(before, store, n))
  {
    hide LastReported, ReportedLast, NeverReported;
    if rjob.None? {
      ReportedAfterRecording(before, Observe(before, None, Pending));
      LastReportedMeaning(before.history);
    }
  }

  /******* Histories as polls write them *******/

  /** Whatever Ray reported carries its submission; what comes before that does
      not. */
  ghost predicate WrittenByPolls(history: seq<Event>) {
    forall i :: 0 <= i < |history| ==>
      var event := history[i];
      if event.state == Pending then event.attempt == 0 && event.rayJob == None else event.rayJob == Some(event.attempt)
  }

  /** On such a history the last event carries the submission whether it is new
      or not. */
  lemma PollWrites(before: Record, store: RayStore, after: Record)
    requires WrittenByPolls(before.history) && RecordedAsTold(before, store, after)
    ensures WrittenByPolls(after.history)
    ensures Last(after.history).rayJob == if store == map[] then None else Some(Last(after.history).attempt)
  {
  }
}
