/** jobs_control_plane/server.py, `poll_once` over the real ids: the dict in
    flight is keyed by id cores, Ray's store by submission ids. One cycle that
    nothing interrupts does to every job what `JobRecords` says for that job
    alone. */
module ControlPlane {
  import opened Common
  import opened JobRecords
  import opened JobMachine
  import opened PollMeaning
  import opened RayIds

  type Future = nat

  datatype Pair = Pair(key: JobKey, cjob: Record, rjob: Option<string>)

  /** Ray's store holds, under their submission ids, the attempts of each job's
      own store, and no other id that carries the job's prefix. */
  ghost predicate Holds(ray: map<string, RayStatus>, stores: map<JobKey, RayStore>) {
    && (forall key :: key in stores ==> key.WellFormed())
    && (forall key, n: nat :: key in stores && n in stores[key] ==>
          key.SubmissionId(n) in ray && ray[key.SubmissionId(n)] == stores[key][n])
    && (forall key, id :: key in stores && id in ray && key.Prefix() <= id ==>
          exists n: nat :: n in stores[key] && id == key.SubmissionId(n))
  }

  /** `rjob` is the id of the job's latest attempt. */
  ghost predicate NamesLatest(key: JobKey, store: RayStore, rjob: Option<string>, latest: Option<nat>) {
    IsLatest(store, latest) &&
    match rjob
    case None => latest == None
    case Some(id) => latest.Some? && id == key.SubmissionId(latest.value)
  }

  /** What one cycle does about a job, given what it holds of it. */
  ghost predicate PolledAs(before: Record, store: RayStore, inFlight: bool, after: Record, verdict: Verdict) {
    if before.Done() || inFlight then after == before && verdict == LeaveAlone
    else
      exists rjob ::
        IsLatest(store, rjob) &&
        after == Observe(before, rjob, StatusOf(store, rjob)) &&
        verdict == Decide(after, rjob, StatusOf(store, rjob))
  }

  function Attempts(stores: map<JobKey, RayStore>): map<JobKey, set<nat>> {
    map key | key in stores :: stores[key].Keys
  }

  lemma HoldsLists(ray: map<string, RayStatus>, stores: map<JobKey, RayStore>, ids: seq<string>)
    requires Holds(ray, stores) && ToSet(ids) == ray.Keys
    ensures Lists(ids, Attempts(stores))
  {
    assert forall id :: id in ids <==> id in ToSet(ids);
    forall key, id | key in Attempts(stores) && id in ids && key.Prefix() <= id
      ensures exists n :: n in Attempts(stores)[key] && id == key.SubmissionId(n)
    {
      var n: nat :| n in stores[key] && id == key.SubmissionId(n);
    }
  }

  lemma HeldUnder(ray: map<string, RayStatus>, stores: map<JobKey, RayStore>, key: JobKey, latest: Option<nat>)
    requires Holds(ray, stores) && key in stores && IsLatest(stores[key], latest) && latest.Some?
    ensures key.WellFormed() && latest.value in stores[key] && key.SubmissionId(latest.value) in ray
    ensures ray[key.SubmissionId(latest.value)] == stores[key][latest.value]
  {
  }

  lemma LatestNamed(key: JobKey, stores: map<JobKey, RayStore>, ids: seq<string>, rjob: Option<string>)
    requires key in stores && Lists(ids, Attempts(stores)) && IsLatestSubmission(ids, key, rjob)
    ensures exists latest :: NamesLatest(key, stores[key], rjob, latest)
  {
    hide Lists, IsLatestSubmission;
    LatestIsLargestAttempt(ids, Attempts(stores), key, rjob);
    if rjob.Some? {
      var n: nat :| n in Attempts(stores)[key] && rjob.value == key.SubmissionId(n) &&
        forall m :: m in Attempts(stores)[key] ==> m <= n;
      assert NamesLatest(key, stores[key], rjob, Some(n));
    } else {
      assert NamesLatest(key, stores[key], None, None);
    }
  }

  lemma PolledWith(before: Record, store: RayStore, latest: Option<nat>)
    requires !before.Done() && IsLatest(store, latest)
    ensures var after := Observe(before, latest, StatusOf(store, latest));
            PolledAs(before, store, false, after, Decide(after, latest, StatusOf(store, latest)))
  {
  }

  /** The executor was handed exactly the dispatched attempts, each once. */
  ghost predicate Calls(calls: seq<(JobKey, nat)>, verdicts: map<JobKey, Verdict>) {
    && Distinct(calls)
    && forall key, n: nat :: (key, n) in calls <==> key in verdicts && verdicts[key] == Dispatch(n)
  }

  /** Ray was asked to stop exactly the attempts the verdicts name. */
  ghost predicate Stops(ids: seq<string>, verdicts: map<JobKey, Verdict>) {
    forall id :: id in ids <==>
      exists key :: key in verdicts && verdicts[key].StopAttempt? && id == key.SubmissionId(verdicts[key].attempt)
  }

  lemma CallsMore(calls: seq<(JobKey, nat)>, verdicts: map<JobKey, Verdict>, key: JobKey, verdict: Verdict)
    requires Calls(calls, verdicts) && key in verdicts && verdicts[key] == LeaveAlone
    ensures Calls(calls + if verdict.Dispatch? then [(key, verdict.attempt)] else [], verdicts[key := verdict])
  {
    forall n: nat ensures (key, n) !in calls {
    }
  }

  lemma StopsMore(ids: seq<string>, verdicts: map<JobKey, Verdict>, key: JobKey, verdict: Verdict)
    requires Stops(ids, verdicts) && key in verdicts && verdicts[key] == LeaveAlone
    ensures
      Stops(ids + if verdict.StopAttempt? then [key.SubmissionId(verdict.attempt)] else [], verdicts[key := verdict])
  {
    var more := if verdict.StopAttempt? then [key.SubmissionId(verdict.attempt)] else [];
    var after := verdicts[key := verdict];
    forall id ensures id in ids + more <==>
      exists k :: k in after && after[k].StopAttempt? && id == k.SubmissionId(after[k].attempt)
    {
      if id in ids {
        var k :| k in verdicts && verdicts[k].StopAttempt? && id == k.SubmissionId(verdicts[k].attempt);
        assert k in after && after[k] == verdicts[k];
      } else if id in more {
        assert key in after && after[key] == verdict;
      }
      if k :| k in after && after[k].StopAttempt? && id == k.SubmissionId(after[k].attempt) {
        assert k != key ==> k in verdicts && verdicts[k] == after[k];
      }
    }
  }

  /** What a cycle over all the jobs did, job by job. */
  ghost predicate AllPolled(
    before: map<JobKey, Record>, stores: map<JobKey, RayStore>, kept: map<string, Future>,
    after: map<JobKey, Record>, verdicts: map<JobKey, Verdict>)
  {
    && before.Keys == stores.Keys == after.Keys == verdicts.Keys
    && forall key :: key in before ==>
         PolledAs(before[key], stores[key], key.Core() in kept, after[key], verdicts[key])
  }

  ghost predicate NeedsWork(records: map<JobKey, Record>, key: JobKey, kept: map<string, Future>)
  {
    key in records && !records[key].Done() && key.Core() !in kept
  }

  ghost predicate Fits(
    records: map<JobKey, Record>, stores: map<JobKey, RayStore>, pair: Pair, kept: map<string, Future>)
  {
    && NeedsWork(records, pair.key, kept) && pair.cjob == records[pair.key] && pair.key in stores
    && exists latest :: NamesLatest(pair.key, stores[pair.key], pair.rjob, latest)
  }

  ghost predicate IsListed(pairs: seq<Pair>, key: JobKey) {
    exists p :: 0 <= p < |pairs| && pairs[p].key == key
  }

  /** One fitting pair for every one of the jobs that needs work. */
  ghost predicate IsWorkList(
    records: map<JobKey, Record>, stores: map<JobKey, RayStore>, pairs: seq<Pair>, among: set<JobKey>,
    kept: map<string, Future>)
  {
    && (forall p :: 0 <= p < |pairs| ==> Fits(records, stores, pairs[p], kept) && pairs[p].key in among)
    && (forall p, q :: 0 <= p < q < |pairs| ==> pairs[p].key != pairs[q].key)
    && (forall key :: key in among && NeedsWork(records, key, kept) ==> IsListed(pairs, key))
  }

  lemma WorkListStarts(records: map<JobKey, Record>, stores: map<JobKey, RayStore>, kept: map<string, Future>)
    ensures IsWorkList(records, stores, [], ToSet<JobKey>([]), kept)
  {
  }

  lemma WorkListMore(
    records: map<JobKey, Record>, stores: map<JobKey, RayStore>, pairs: seq<Pair>, among: set<JobKey>,
    kept: map<string, Future>, pair: Pair)
    requires IsWorkList(records, stores, pairs, among, kept) && Fits(records, stores, pair, kept) && pair.key !in among
    ensures IsWorkList(records, stores, pairs + [pair], among + {pair.key}, kept)
  {
    hide Fits;
    var longer := pairs + [pair];
    forall key | key in among + {pair.key} && NeedsWork(records, key, kept)
      ensures IsListed(longer, key)
    {
      if key == pair.key {
        assert longer[|pairs|].key == key;
      } else {
        var p :| 0 <= p < |pairs| && pairs[p].key == key;
        assert longer[p].key == key;
      }
    }
  }

  lemma WorkListSkip(
    records: map<JobKey, Record>, stores: map<JobKey, RayStore>, pairs: seq<Pair>, among: set<JobKey>,
    kept: map<string, Future>, key: JobKey)
    requires IsWorkList(records, stores, pairs, among, kept) && !NeedsWork(records, key, kept)
    ensures IsWorkList(records, stores, pairs, among + {key}, kept)
  {
    hide Fits;
  }

  /******* How far the loop has come *******/

  ghost predicate RecordsFollow(
    before: map<JobKey, Record>, stores: map<JobKey, RayStore>, now: map<JobKey, Record>,
    verdicts: map<JobKey, Verdict>, handled: set<JobKey>)
  {
    && before.Keys == stores.Keys == now.Keys == verdicts.Keys
    && forall key :: key in before ==>
         if key in handled then PolledAs(before[key], stores[key], false, now[key], verdicts[key])
         else now[key] == before[key] && verdicts[key] == LeaveAlone
  }

  /** The dict holds the entries kept and one per dispatch. */
  ghost predicate FlightFollows(
    kept: map<string, Future>, flight: map<string, Future>, verdicts: map<JobKey, Verdict>)
  {
    forall key :: key in verdicts ==> (key.Core() in flight <==> key.Core() in kept || verdicts[key].Dispatch?)
  }

  /** The entries kept are as they were, the others hold futures handed out
      from `first` on. */
  ghost predicate EntriesFollow(kept: map<string, Future>, flight: map<string, Future>, first: nat) {
    && (forall id :: id in kept ==> id in flight && flight[id] == kept[id])
    && (forall id :: id in flight && id !in kept ==> flight[id] >= first)
  }

  lemma StartsFollowing(
    before: map<JobKey, Record>, stores: map<JobKey, RayStore>, kept: map<string, Future>,
    verdicts: map<JobKey, Verdict>)
    requires before.Keys == stores.Keys
    requires verdicts == map key | key in before :: LeaveAlone
    ensures RecordsFollow(before, stores, before, verdicts, KeysOf([]))
    ensures FlightFollows(kept, kept, verdicts) && Calls([], verdicts) && Stops([], verdicts)
  {
  }

  lemma RecordsFollowMore(
    before: map<JobKey, Record>, stores: map<JobKey, RayStore>, prior: map<JobKey, Record>, now: map<JobKey, Record>,
    verdicts: map<JobKey, Verdict>, handled: set<JobKey>, key: JobKey, verdict: Verdict)
    requires RecordsFollow(before, stores, prior, verdicts, handled) && key in before && key !in handled
    requires now.Keys == prior.Keys && PolledAs(before[key], stores[key], false, now[key], verdict)
    requires forall other :: other in now && other != key ==> now[other] == prior[other]
    ensures RecordsFollow(before, stores, now, verdicts[key := verdict], handled + {key})
  {
    hide PolledAs;
  }

  lemma FlightFollowsMore(
    kept: map<string, Future>, stores: map<JobKey, RayStore>, ray: map<string, RayStatus>, flight: map<string, Future>,
    after: map<string, Future>, verdicts: map<JobKey, Verdict>, key: JobKey, verdict: Verdict)
    requires Holds(ray, stores) && verdicts.Keys == stores.Keys && FlightFollows(kept, flight, verdicts)
    requires key in verdicts && verdicts[key] == LeaveAlone
    requires after.Keys == flight.Keys + if verdict.Dispatch? then {key.Core()} else {}
    ensures FlightFollows(kept, after, verdicts[key := verdict])
  {
    forall other | other in verdicts && other.Core() == key.Core() ensures other == key {
      CoreIdentifies(other, key);
    }
  }

  lemma NotHandledYet(
    before: map<JobKey, Record>, stores: map<JobKey, RayStore>, now: map<JobKey, Record>,
    verdicts: map<JobKey, Verdict>, handled: set<JobKey>, key: JobKey)
    requires RecordsFollow(before, stores, now, verdicts, handled) && key in before && key !in handled
    ensures key in verdicts && verdicts[key] == LeaveAlone
    ensures key in now && now[key] == before[key]
  {
  }

  lemma WorkListNext(
    pairs: seq<Pair>, among: set<JobKey>, kept: map<string, Future>, before: map<JobKey, Record>,
    stores: map<JobKey, RayStore>, i: nat)
    requires IsWorkList(before, stores, pairs, among, kept) && i < |pairs|
    ensures Fits(before, stores, pairs[i], kept) && pairs[i].key !in KeysOf(pairs[..i])
    ensures KeysOf(pairs[..i + 1]) == KeysOf(pairs[..i]) + {pairs[i].key}
    ensures pairs[i].key.Core() !in kept
  {
    hide NamesLatest;
    KeysOfNext(pairs, i);
  }

  lemma AllFollowed(
    before: map<JobKey, Record>, stores: map<JobKey, RayStore>, kept: map<string, Future>, now: map<JobKey, Record>,
    verdicts: map<JobKey, Verdict>, among: set<JobKey>, pairs: seq<Pair>)
    requires IsWorkList(before, stores, pairs, among, kept) && before.Keys == among
    requires RecordsFollow(before, stores, now, verdicts, KeysOf(pairs))
    ensures AllPolled(before, stores, kept, now, verdicts)
  {
    forall key | key in before
      ensures PolledAs(before[key], stores[key], key.Core() in kept, now[key], verdicts[key])
    {
      if key in KeysOf(pairs) {
        var p :| 0 <= p < |pairs| && pairs[p].key == key;
        assert Fits(before, stores, pairs[p], kept);
      } else {
        assert !NeedsWork(before, key, kept);
      }
    }
  }

  /******* The cycle, in terms of what Ray holds and what was recorded *******/

  /** The open jobs without a worker under way. */
  ghost predicate WorkedOn(records: map<JobKey, Record>, kept: map<string, Future>, key: JobKey) {
    key in records && Open(records[key]) && key.Core() !in kept
  }

  ghost predicate SubmittedNow(
    records: map<JobKey, Record>, stores: map<JobKey, RayStore>, kept: map<string, Future>, key: JobKey, n: nat)
    requires records.Keys == stores.Keys
  {
    WorkedOn(records, kept, key) && Submits(records[key], stores[key], n)
  }

  ghost predicate StoppedNow(
    records: map<JobKey, Record>, stores: map<JobKey, RayStore>, kept: map<string, Future>, key: JobKey, n: nat)
    requires records.Keys == stores.Keys
  {
    WorkedOn(records, kept, key) && AsksToStop(records[key], stores[key], n)
  }

  lemma PolledMeans(
    before: map<JobKey, Record>, stores: map<JobKey, RayStore>, kept: map<string, Future>, after: map<JobKey, Record>,
    verdicts: map<JobKey, Verdict>, key: JobKey)
    requires AllPolled(before, stores, kept, after, verdicts) && key in before
    ensures if WorkedOn(before, kept, key) then RecordedAsTold(before[key], stores[key], after[key])
            else after[key] == before[key]
    ensures forall n: nat :: verdicts[key] == Dispatch(n) <==> SubmittedNow(before, stores, kept, key, n)
    ensures forall n: nat :: verdicts[key] == StopAttempt(n) <==> StoppedNow(before, stores, kept, key, n)
  {
    hide Observe, Decide, StatusOf, Submits, AsksToStop, RecordedAsTold, Record.Done, Open;
    OpenIffNotDone(before[key]);
    if WorkedOn(before, kept, key) {
      var rjob :|
        IsLatest(stores[key], rjob) &&
        after[key] == Observe(before[key], rjob, StatusOf(stores[key], rjob)) &&
        verdicts[key] == Decide(after[key], rjob, StatusOf(stores[key], rjob));
      PollMeans(before[key], stores[key], rjob, 0);
      forall n: nat
        ensures verdicts[key] == Dispatch(n) <==> Submits(before[key], stores[key], n)
        ensures verdicts[key] == StopAttempt(n) <==> AsksToStop(before[key], stores[key], n)
      {
        PollMeans(before[key], stores[key], rjob, n);
      }
    }
  }

  /** Every job worked on has what Ray holds recorded, every other is as it was. */
  ghost predicate RecordsTold(
    before: map<JobKey, Record>, stores: map<JobKey, RayStore>, kept: map<string, Future>, after: map<JobKey, Record>)
    requires before.Keys == stores.Keys
  {
    before.Keys == after.Keys &&
    forall key :: key in before ==>
      if WorkedOn(before, kept, key) then RecordedAsTold(before[key], stores[key], after[key])
      else after[key] == before[key]
  }

  /** A job has an entry if one was kept or the job was handed to a worker. */
  ghost predicate FlightTold(
    before: map<JobKey, Record>, stores: map<JobKey, RayStore>, kept: map<string, Future>, flight: map<string, Future>)
    requires before.Keys == stores.Keys
  {
    forall key :: key in before ==>
      (key.Core() in flight <==> key.Core() in kept || exists n: nat :: SubmittedNow(before, stores, kept, key, n))
  }

  /** Exactly the attempts to be submitted were handed out, each once. */
  ghost predicate CallsTold(
    before: map<JobKey, Record>, stores: map<JobKey, RayStore>, kept: map<string, Future>, calls: seq<(JobKey, nat)>)
    requires before.Keys == stores.Keys
  {
    Distinct(calls) && forall key, n: nat :: (key, n) in calls <==> SubmittedNow(before, stores, kept, key, n)
  }

  ghost predicate StopsTold(
    before: map<JobKey, Record>, stores: map<JobKey, RayStore>, kept: map<string, Future>, ids: seq<string>)
    requires before.Keys == stores.Keys
  {
    forall id :: id in ids <==>
      exists key, n: nat :: StoppedNow(before, stores, kept, key, n) && id == key.SubmissionId(n)
  }

  lemma CycleMeans(
    before: map<JobKey, Record>, stores: map<JobKey, RayStore>, kept: map<string, Future>, after: map<JobKey, Record>,
    verdicts: map<JobKey, Verdict>, flight: map<string, Future>)
    requires AllPolled(before, stores, kept, after, verdicts) && FlightFollows(kept, flight, verdicts)
    ensures RecordsTold(before, stores, kept, after) && FlightTold(before, stores, kept, flight)
  {
    hide WorkedOn, RecordedAsTold, SubmittedNow, PolledAs;
    forall key | key in before
      ensures if WorkedOn(before, kept, key) then RecordedAsTold(before[key], stores[key], after[key])
              else after[key] == before[key]
      ensures forall n: nat :: verdicts[key] == Dispatch(n) <==> SubmittedNow(before, stores, kept, key, n)
    {
      PolledMeans(before, stores, kept, after, verdicts, key);
    }
  }

  lemma CallsMean(
    before: map<JobKey, Record>, stores: map<JobKey, RayStore>, kept: map<string, Future>, after: map<JobKey, Record>,
    verdicts: map<JobKey, Verdict>, calls: seq<(JobKey, nat)>)
    requires AllPolled(before, stores, kept, after, verdicts) && Calls(calls, verdicts)
    ensures CallsTold(before, stores, kept, calls)
  {
    hide PolledAs, Submits;
    forall key, n: nat ensures (key, n) in calls <==> SubmittedNow(before, stores, kept, key, n) {
      if key in before {
        PolledMeans(before, stores, kept, after, verdicts, key);
      }
    }
  }

  lemma StopsMean(
    before: map<JobKey, Record>, stores: map<JobKey, RayStore>, kept: map<string, Future>, after: map<JobKey, Record>,
    verdicts: map<JobKey, Verdict>, ids: seq<string>)
    requires AllPolled(before, stores, kept, after, verdicts) && Stops(ids, verdicts)
    ensures StopsTold(before, stores, kept, ids)
  {
    hide PolledAs, AsksToStop, JobKey.SubmissionId;
    forall key, n: nat
      ensures key in verdicts && verdicts[key] == StopAttempt(n) <==> StoppedNow(before, stores, kept, key, n)
    {
      if key in before {
        PolledMeans(before, stores, kept, after, verdicts, key);
      }
    }
    forall id ensures id in ids <==>
      exists key, n: nat :: StoppedNow(before, stores, kept, key, n) && id == key.SubmissionId(n)
    {
      if id in ids {
        var key :| key in verdicts && verdicts[key].StopAttempt? && id == key.SubmissionId(verdicts[key].attempt);
        assert StoppedNow(before, stores, kept, key, verdicts[key].attempt);
      }
    }
  }

  lemma EntriesStart(kept: map<string, Future>, first: nat)
    ensures EntriesFollow(kept, kept, first)
  {
  }

  class Poller {
    var keys: seq<JobKey>                 // the jobs table, in order of creation
    var records: map<JobKey, Record>
    var ray: map<string, RayStatus>
    ghost var stores: map<JobKey, RayStore>
    var inFlight: map<string, Future>
    var finished: set<Future>             // futures that are done
    var futures: nat                      // how many were handed out
    var dispatched: seq<(JobKey, nat)>    // executor.submit calls, oldest first
    var stopped: seq<string>              // stop_ray_job calls

    ghost predicate Valid()
      reads this
    {
      && Distinct(keys) && ToSet(keys) == records.Keys
      && stores.Keys == records.Keys
      && Holds(ray, stores)
      && (forall id :: id in inFlight ==> inFlight[id] < futures)
    }

    constructor ()
      ensures Valid() && records == map[] && inFlight == map[] && dispatched == [] && stopped == []
    {
      keys, records, ray, stores := [], map[], map[], map[];
      inFlight, finished, futures, dispatched, stopped := map[], {}, 0, [], [];
    }

    /** _process_jobs_in_flight: drops the entries whose future is done. */
    method ProcessJobsInFlight() returns (updated: map<string, Future>)
      ensures updated == map id | id in inFlight && inFlight[id] !in finished :: inFlight[id]
    {
      updated := map[];
      var ids := Enumerate(inFlight.Keys);
      var i := 0;
      while i < |ids|
        invariant 0 <= i <= |ids|
        invariant updated ==
          map id | id in ToSet(ids[..i]) && id in inFlight && inFlight[id] !in finished :: inFlight[id]
      {
        assert ids[i] in ToSet(ids);
        assert ids[..i + 1] == ids[..i] + [ids[i]];
        if inFlight[ids[i]] !in finished {
          updated := updated[ids[i] := inFlight[ids[i]]];
        }
        i := i + 1;
      }
      assert ids[..i] == ids;
    }

    /** _get_jobs_for_processing: the open jobs that are not in flight, each
        with its latest submission. */
    method GetJobsForProcessing(kept: map<string, Future>) returns (pairs: seq<Pair>)
      requires Valid()
      ensures IsWorkList(records, stores, pairs, ToSet(keys), kept)
    {
      hide Holds, IsWorkList, NamesLatest, Lists, IsLatestSubmission;
      WorkListStarts(records, stores, kept);
      var ids := Enumerate(ray.Keys);
      HoldsLists(ray, stores, ids);
      pairs := [];
      var i := 0;
      while i < |keys|
        invariant 0 <= i <= |keys|
        invariant IsWorkList(records, stores, pairs, ToSet(keys[..i]), kept)
      {
        var key := keys[i];
        assert key in ToSet(keys) && key !in ToSet(keys[..i]);
        assert keys[..i + 1] == keys[..i] + [key];
        assert ToSet(keys[..i + 1]) == ToSet(keys[..i]) + {key};
        if !records[key].Done() && key.Core() !in kept {
          ListedIdsParse(ids, Attempts(stores), key);
          var found := LatestSubmission(ids, key);
          var latest := found.submission;
          LatestNamed(key, stores, ids, latest);
          WorkListMore(records, stores, pairs, ToSet(keys[..i]), kept, Pair(key, records[key], latest));
          pairs := pairs + [Pair(key, records[key], latest)];
        } else {
          WorkListSkip(records, stores, pairs, ToSet(keys[..i]), kept, key);
        }
        i := i + 1;
      }
      assert keys[..i] == keys;
    }

    /******* The loop over the pairs *******/

    /** get_ray_job_attempt and get_ray_job_status of a matched submission. */
    method AskRay(key: JobKey, rjob: Option<string>, ghost latest: Option<nat>)
      returns (attempt: Option<nat>, status: JobStatus)
      requires Valid() && key in stores && NamesLatest(key, stores[key], rjob, latest)
      ensures attempt == latest && Answers(stores[key], latest) && status == StatusOf(stores[key], latest)
      ensures if latest.Some? then StateTold(stores[key][latest.value], status) else status == Pending
    {
      hide Holds, IsLatest;
      if rjob.None? {
        return None, Pending;
      }
      HeldUnder(ray, stores, key, latest);
      AttemptParsesBack(key, latest.value);
      attempt := Some(Attempt(rjob.value).value);
      match ray[rjob.value]
      case RaySucceeded => status := Finished;
      case RayFailed => status := Failed;
      case RayStopped => status := Stopped;
      case RayPending => status := Running;
      case RayRunning => status := Running;
    }

    /** _record_state */
    method RecordState(key: JobKey, rjob: Option<nat>, status: JobStatus) returns (cjob: Record)
      requires key in records
      modifies this`records
      ensures cjob == Observe(old(records)[key], rjob, status)
      ensures records == old(records)[key := cjob]
    {
      cjob := records[key];
      if !AlreadyRecorded(cjob.history, rjob, status) {
        cjob := cjob.(history := cjob.history + [Event(AttemptOf(rjob), status, rjob)]);
        records := records[key := Merge(records[key], cjob)];
      }
      assert records == old(records)[key := cjob];
    }

    /** The rest of the body: stop or dispatch. */
    method CarryOut(key: JobKey, cjob: Record, rjob: Option<nat>, status: JobStatus, flight: map<string, Future>)
      returns (flightAfter: map<string, Future>, verdict: Verdict)
      modifies this`futures, this`dispatched, this`stopped
      ensures verdict == Decide(cjob, rjob, status)
      ensures dispatched == old(dispatched) + if verdict.Dispatch? then [(key, verdict.attempt)] else []
      ensures stopped == old(stopped) + if verdict.StopAttempt? then [key.SubmissionId(verdict.attempt)] else []
      ensures futures == old(futures) + if verdict.Dispatch? then 1 else 0
      ensures flightAfter == if verdict.Dispatch? then flight[key.Core() := old(futures)] else flight
    {
      flightAfter, verdict := flight, LeaveAlone;
      if cjob.stop {
        if rjob.Some? {
          verdict := StopAttempt(rjob.value);
          stopped := stopped + [key.SubmissionId(rjob.value)];
        }
        return;
      }
      var effective := EffectiveStatus(cjob, rjob, status);
      if effective == Pending {
        verdict := Dispatch(0);
      } else if effective == Failed && cjob.retry {
        verdict := Dispatch(AttemptOf(rjob) + 1);
      }
      if verdict.Dispatch? {
        dispatched := dispatched + [(key, verdict.attempt)];
        flightAfter := flight[key.Core() := futures];
        futures := futures + 1;
      }
    }

    method HandlePair(pair: Pair, flight: map<string, Future>)
      returns (flightAfter: map<string, Future>, verdict: Verdict)
      requires Valid() && pair.key in records && pair.cjob == records[pair.key] && !pair.cjob.Done()
      requires exists latest :: NamesLatest(pair.key, stores[pair.key], pair.rjob, latest)
      requires forall id :: id in flight ==> flight[id] < futures
      modifies this`records, this`futures, this`dispatched, this`stopped
      ensures Valid()
      ensures records.Keys == old(records).Keys
      ensures PolledAs(pair.cjob, stores[pair.key], false, records[pair.key], verdict)
      ensures forall key :: key in records && key != pair.key ==> records[key] == old(records)[key]
      ensures dispatched == old(dispatched) + if verdict.Dispatch? then [(pair.key, verdict.attempt)] else []
      ensures stopped == old(stopped) + if verdict.StopAttempt? then [pair.key.SubmissionId(verdict.attempt)] else []
      ensures futures >= old(futures) && forall id :: id in flightAfter ==> flightAfter[id] < futures
      ensures flightAfter == if verdict.Dispatch? then flight[pair.key.Core() := old(futures)] else flight
    {
      hide Decide, Observe, NamesLatest, Holds, IsLatest, PolledAs;
      ghost var latest :| NamesLatest(pair.key, stores[pair.key], pair.rjob, latest);
      assert IsLatest(stores[pair.key], latest) by { NamesIsLatest(pair, latest); }
      var rjob, status := AskRay(pair.key, pair.rjob, latest);
      var cjob := RecordState(pair.key, rjob, status);
      flightAfter, verdict := CarryOut(pair.key, cjob, rjob, status, flight);
      PolledWith(pair.cjob, stores[pair.key], latest);
    }

    lemma NamesIsLatest(pair: Pair, latest: Option<nat>)
      requires pair.key in stores && NamesLatest(pair.key, stores[pair.key], pair.rjob, latest)
      ensures IsLatest(stores[pair.key], latest)
    {
    }

    /******* The whole cycle *******/

    /** One turn of the loop. */
    method Advance(
      pair: Pair, flight: map<string, Future>, ghost before: map<JobKey, Record>, ghost kept: map<string, Future>,
      ghost verdicts: map<JobKey, Verdict>, ghost handled: set<JobKey>, ghost first: nat)
      returns (flightAfter: map<string, Future>, verdict: Verdict)
      requires Valid() && (forall id :: id in flight ==> flight[id] < futures)
      requires RecordsFollow(before, stores, records, verdicts, handled) && FlightFollows(kept, flight, verdicts)
      requires pair.key in before && pair.key !in handled && pair.cjob == before[pair.key] && !pair.cjob.Done()
      requires exists latest :: NamesLatest(pair.key, stores[pair.key], pair.rjob, latest)
      requires pair.key.Core() !in kept && first <= futures && EntriesFollow(kept, flight, first)
      modifies this`records, this`futures, this`dispatched, this`stopped
      ensures Valid() && forall id :: id in flightAfter ==> flightAfter[id] < futures
      ensures first <= futures && EntriesFollow(kept, flightAfter, first)
      ensures RecordsFollow(before, stores, records, verdicts[pair.key := verdict], handled + {pair.key})
      ensures FlightFollows(kept, flightAfter, verdicts[pair.key := verdict])
      ensures dispatched == old(dispatched) + if verdict.Dispatch? then [(pair.key, verdict.attempt)] else []
      ensures stopped == old(stopped) + if verdict.StopAttempt? then [pair.key.SubmissionId(verdict.attempt)] else []
    {
      hide NamesLatest, PolledAs, Holds, FlightFollows;
      flightAfter, verdict := HandlePair(pair, flight);
      RecordsFollowMore(before, stores, old(records), records, verdicts, handled, pair.key, verdict);
      FlightFollowsMore(kept, stores, ray, flight, flightAfter, verdicts, pair.key, verdict);
    }

    method PollOnce() returns (ghost kept: map<string, Future>, ghost verdicts: map<JobKey, Verdict>)
      requires Valid()
      modifies this`records, this`futures, this`dispatched, this`stopped, this`inFlight
      ensures Valid()
      ensures kept == old(map id | id in inFlight && inFlight[id] !in finished :: inFlight[id])
      ensures AllPolled(old(records), stores, kept, records, verdicts)
      ensures exists calls :: dispatched == old(dispatched) + calls && Calls(calls, verdicts)
      ensures exists ids :: stopped == old(stopped) + ids && Stops(ids, verdicts)
      ensures FlightFollows(kept, inFlight, verdicts)
      ensures RecordsTold(old(records), stores, kept, records)
      ensures exists calls :: dispatched == old(dispatched) + calls && CallsTold(old(records), stores, kept, calls)
      ensures exists ids :: stopped == old(stopped) + ids && StopsTold(old(records), stores, kept, ids)
      ensures FlightTold(old(records), stores, kept, inFlight) && EntriesFollow(kept, inFlight, old(futures))
    {
      hide Holds, NamesLatest, PolledAs, Calls, Stops, FlightFollows, RecordsFollow, IsWorkList, KeysOf, AllPolled,
        CallsTold, StopsTold, RecordsTold, FlightTold, EntriesFollow;
      var flight: map<string, Future> := ProcessJobsInFlight();
      kept := flight;
      var pairs := GetJobsForProcessing(flight);
      flight, verdicts := HandleAll(pairs, flight);
      AllFollowed(old(records), stores, kept, records, verdicts, ToSet(keys), pairs);
      inFlight := flight;
      CycleMeans(old(records), stores, kept, records, verdicts, inFlight);
      ghost var calls :| dispatched == old(dispatched) + calls && Calls(calls, verdicts);
      CallsMean(old(records), stores, kept, records, verdicts, calls);
      ghost var ids :| stopped == old(stopped) + ids && Stops(ids, verdicts);
      StopsMean(old(records), stores, kept, records, verdicts, ids);
    }

    /** The loop over the pairs. */
    method HandleAll(pairs: seq<Pair>, kept: map<string, Future>)
      returns (flight: map<string, Future>, ghost verdicts: map<JobKey, Verdict>)
      requires Valid() && IsWorkList(records, stores, pairs, ToSet(keys), kept)
      requires forall id :: id in kept ==> kept[id] < futures
      modifies this`records, this`futures, this`dispatched, this`stopped
      ensures Valid() && (forall id :: id in flight ==> flight[id] < futures)
      ensures RecordsFollow(old(records), stores, records, verdicts, KeysOf(pairs))
      ensures FlightFollows(kept, flight, verdicts) && EntriesFollow(kept, flight, old(futures))
      ensures exists calls :: dispatched == old(dispatched) + calls && Calls(calls, verdicts)
      ensures exists ids :: stopped == old(stopped) + ids && Stops(ids, verdicts)
    {
      hide Holds, NamesLatest, PolledAs, Calls, Stops, FlightFollows, RecordsFollow, IsWorkList, KeysOf,
        EntriesFollow;
      flight := kept;
      EntriesStart(kept, futures);
      verdicts := map key | key in records :: LeaveAlone;
      ghost var before, calls, ids := records, [], [];
      StartsFollowing(before, stores, kept, verdicts);
      var i := 0;
      while i < |pairs|
        invariant 0 <= i <= |pairs| && Valid() && (forall id :: id in flight ==> flight[id] < futures)
        invariant RecordsFollow(before, stores, records, verdicts, KeysOf(pairs[..i]))
        invariant FlightFollows(kept, flight, verdicts)
        invariant old(futures) <= futures && EntriesFollow(kept, flight, old(futures))
        invariant dispatched == old(dispatched) + calls && Calls(calls, verdicts)
        invariant stopped == old(stopped) + ids && Stops(ids, verdicts)
      {
        var pair := pairs[i];
        WorkListNext(pairs, ToSet(keys), kept, before, stores, i);
        NotHandledYet(before, stores, records, verdicts, KeysOf(pairs[..i]), pair.key);
        ghost var verdict;
        flight, verdict := Advance(pair, flight, before, kept, verdicts, KeysOf(pairs[..i]), old(futures));
        CallsMore(calls, verdicts, pair.key, verdict);
        StopsMore(ids, verdicts, pair.key, verdict);
        ghost var call := if verdict.Dispatch? then [(pair.key, verdict.attempt)] else [];
        ghost var id := if verdict.StopAttempt? then [pair.key.SubmissionId(verdict.attempt)] else [];
        Associates(old(dispatched), calls, call);
        Associates(old(stopped), ids, id);
        calls, ids := calls + call, ids + id;
        verdicts := verdicts[pair.key := verdict];
        i := i + 1;
      }
      assert pairs[..i] == pairs;
    }
  }

  ghost function KeysOf(pairs: seq<Pair>): set<JobKey> {
    set p | 0 <= p < |pairs| :: pairs[p].key
  }

  lemma KeysOfNext(pairs: seq<Pair>, i: nat)
    requires i < |pairs|
    ensures KeysOf(pairs[..i + 1]) == KeysOf(pairs[..i]) + {pairs[i].key}
  {
    assert pairs[..i + 1] == pairs[..i] + [pairs[i]];
    forall key | key in KeysOf(pairs[..i]) + {pairs[i].key} ensures key in KeysOf(pairs[..i + 1]) {
      if key == pairs[i].key {
        assert pairs[..i + 1][i].key == key;
      } else {
        var p :| 0 <= p < |pairs[..i]| && pairs[..i][p].key == key;
        assert pairs[..i + 1][p].key == key;
      }
    }
  }
}
