# Cortexgrid: a verified model of its schedulers, stores and state machines

This project models the parts of Cortexgrid whose correctness does not show in any one function, and proves what they
are for. `dafny verify dfyconfig.toml` checks all of it. Each component is one or a few modules:

- **GPU pause scheduler** (`PauseSearch`, `PauseDecision`, `PauseMinimality`, `ClusterOccupancy`, `ModelReports`,
  `ModelScheduler`). When a Serve replica waits for room, idle models are scaled to zero. A decision is safe (only idle
  models, together with everything running that requires them, never what the replica itself needs), it frees enough on
  some node, and it gives up exactly when no set of models it may pause would help. The books it reads balance on every
  node.
- **Jobs control plane** (`RayIds`, `JobRecords`, `PollMeaning`, `JobMachine`, `JobSafety`, `JobTheorems`, `JobStops`,
  `ControlPlane`, `JobRuns`). One job is a state machine over the steps of the poll cycle, its submission workers, its
  user and Ray, in every interleaving, with lost stores and raising cycles. `ControlPlane` is the loop over all jobs on
  the real string ids; `PollIsACycle` ties one turn of it to a run of the job's machine.
- **Keyed stream** (`StreamEvents`, `KeyedStream`, `Refresher`). The locked sections are atomic steps. Along every run a
  connection's frames, its replay still to send and its queue fold to the union of its topics' caches.
- **Env-file secrets store** (`Regex`, `EnvFormat`, `EnvRoundTrip`, `EnvHandWritten`, `EnvFileStore`). The regular
  expression is a value matched by a small backtracking engine; what the printer writes, the parser reads back, so the
  file is a map, and lines written by hand are read as they are meant.
- **Code bundler** (`Bundle`, `BundleClosure`, `DistributionClosure`, `Digest`, `StagedDigest`). Two worklists compute
  exactly what is reachable in graphs that may be cyclic, and the bytes fed to the digest tell exactly what stages at
  each import path.
- **Cluster commands** (`ClusterConfig`, `ClusterCli`). Pipelines that may stop after any step, and the commands over
  them, keep `infra-config.yaml` sound.
- **Model deployment** (`ModelDeploy`). A recursive deploy against a Serve controller that goes its own way between any
  two looks; the trace of what was seen and PUT is the subject of the theorems.

`Common`, `Sorting`, `Graph`, `Sums` and `Decimal` hold what several of these share.

Where the source changes state in place, the model is a class or a method with a loop, proved against a function or
predicate on values; the properties are then lemmas about those. What a method promises is also said in terms of its
inputs alone, of the lists, records and files the source reads, without the functions that the model computes with.
Resources are `real`. Time is an input that the callers pass in. Python's dicts keep insertion order where an order can
be observed (`Common.Dict`). The environment (Ray, the Serve controller, users, worker processes, failing steps) is an
arbitrary choice of steps or inputs.

## Findings

Where the code does not do what its documentation or its callers lead one to expect, the model follows the code, a lemma
gives an input, and another says when the two agree.

- `get_ray_job_status` says that a submission Ray still queues reads as PENDING; the code reads it as RUNNING
  (cortexgrid/ray_util.py:61-77). They agree exactly on submissions that Ray does not queue
  (`JobRecords.DocumentedAgreesIff`), and the poll would do the same under the documented reading exactly there or when
  a stop is requested (`JobRecords.DocumentedDecidesAlikeIff`). Elsewhere it would dispatch a queued job again, even one
  without retry: `JobRuns.DocumentedReadingBreaksFinality` reaches such a state.
- "The fewest idle models on one node" (docs/cortexgrid/model-serving.md:183) is the shortest sufficient prefix of the
  least-recently-used order, and need not be the fewest: `PauseDecision.SmallerSetMaySuffice`. On a node it always is,
  for every need and every order of use, exactly when the node's groups are interchangeable
  (`PauseMinimality.NodeAlwaysFewestIff`): equally many groups are equally many models that hold the same, and a group
  that frees nothing goes along with every other. For models that nothing running requires this says that all hold the
  same (`PauseMinimality.AloneInterchangeableIff`). With such groups on every node the whole choice is the fewest
  (`PauseMinimality.ChoiceIsFewest`); for a single need and a single order the condition is not necessary
  (`PauseMinimality.LuckyOrder`).
- At most one live attempt per job holds along every run in which no cycle lost track of a worker, and along every run
  in which Ray kept its store (`JobTheorems.AtMostOneLive`). With both it fails: `JobRuns.TwoLiveAttempts` builds such
  a run. The same pair of losses is what can have a job that is done dispatched again
  (`JobRuns.DoneJobDispatchedAgain`); without the pair it never is (`JobTheorems.DoneForGood`).
- A stop request does not keep submissions from reaching Ray (jobs_control_plane/server.py:77-110). While the dict keeps
  track of every worker one more may arrive, or two if Ray loses its store after the first (`JobTheorems.StopIsHeeded`;
  `JobRuns.TwoLateSubmissions` meets the two). With a lost worker two may arrive although Ray keeps its store
  (`JobRuns.TwoLateByLostWorker`). For every run, whatever is lost, the bound is `JobStops.StopBound`: one for each
  worker unfinished at the stop, or two for each if Ray loses its store later, and one more if the cycle under way had
  read the job before the stop.
- `useStreamList` keeps its map over a reconnect, and may then show an item for good that is no more:
  `KeyedStream.StaleAfterReconnect`. `StreamEvents.LeftOverAgreesIff`, `StreamEvents.ReconnectAgreesIff` and
  `KeyedStream.ReconnectedShowsCacheIff` say exactly when it shows what a fresh client would.
- "Files that stage identically digest identically, wherever they live on disk" (cortexgrid/_bundle.py:118-119) holds of
  files that stage at different import paths, and then so does its converse (`StagedDigest.SameBytesIffStagedAlike`).
  Files that stage on top of each other, two scripts of one name say, are hashed in the order of where they live:
  `StagedDigest.LocationsCount` gives two that stage the same contents and are hashed differently, and
  `StagedDigest.SameBytesIffSameContents` says for all files exactly when the hash is fed the same bytes.
- A deploy records an app that the controller does not list as deploying, where the control plane's own look would say
  not deployed: it looks the app up as an empty dict, not as None (cortexgrid/model_serving/lifecycle.py:291-300). The
  two agree exactly on listed apps (`ModelDeploy.ObservationsAgreeIff`); another caller's PUT can come in between
  (`ModelDeploy.Deployer.RecordAfterOthersPut`), and then a redeploy takes the record for current.
- `restart` saves the config without the head before it saves it with the head again. Stopped between the two, and only
  then, it loses the head's entry: `ClusterCli.Restart`.

## Model

| member | source | states |
|---|---|---|
| Graph.Search | cortexgrid/_model_scheduler.py:369-377 | the worklist ends on every graph, cycles included, and returns exactly the nodes one or more edges away |
| Graph.Reversed | cortexgrid/_model_scheduler.py:380-385 | exactly the edges of the graph, turned round |
| Graph.ReversedReachability | cortexgrid/_model_scheduler.py:380-385 | y is reachable from x in the reversed graph exactly when x is from y in the original |
| PauseSearch.AddResources | cortexgrid/_model_scheduler.py:388-390 | adds every amount and leaves all other resources as they were |
| PauseSearch.SubtractResources | cortexgrid/_model_scheduler.py:393-395 | takes every amount away and leaves all other resources as they were |
| PauseSearch.ModelOfAppIsLast | cortexgrid/_model_scheduler.py:244 | an app stands for the last model that reports under it, and for none exactly when no model does |
| PauseSearch.RequiredIffStandsFor | cortexgrid/_model_scheduler.py:243-248 | a model requires exactly the models that stand for the apps it names: of those that report under one app, the last |
| PauseSearch.PauseGroups | cortexgrid/_model_scheduler.py:250-261 | a group for exactly the running models whose running dependents are all idle and spared; the group is the model with all its running transitive dependents |
| PauseSearch.GroupsNest | cortexgrid/_model_scheduler.py:256 | the group of a member lies within the group |
| PauseSearch.FreesMonotone | cortexgrid/_model_scheduler.py:388-402 | pausing more of the models that hold something on a node never frees less |
| PauseSearch.PauseGroup | cortexgrid/_model_scheduler.py:295-301 | pauses each member of a group once and counts what it holds once, members paused before left out |
| PauseSearch.ShortestPrefixFreeing | cortexgrid/_model_scheduler.py:292-304 | the groups of the shortest prefix that frees enough, or None exactly when no prefix does |
| PauseSearch.LeastRecentlyUsedIdleModelsFreeing | cortexgrid/_model_scheduler.py:283-304 | that answer over the node's least-recently-used order; every model listed once |
| PauseSearch.ShortestIsUnique | cortexgrid/_model_scheduler.py:292-304 | a node's order has one shortest sufficient set, so what the search finds on a node is a function of the node |
| PauseSearch.FewestIdleModelsToPauseFor | cortexgrid/_model_scheduler.py:263-281 | nothing if any node has room; otherwise the smallest of all nodes' answers, the first of these on a tie, and nothing exactly if no node has one |
| PauseDecision.LeastRecentlyUsedMeaning | cortexgrid/_model_scheduler.py:289-292 | the order holds exactly the node's pausable models, each once, by the time of their last request |
| PauseDecision.TiesInNodeOrder | cortexgrid/_model_scheduler.py:289-292 | models last used at one time come in the node's own order |
| PauseDecision.ChoiceIsSafe | cortexgrid/_model_scheduler.py:225-241 | a choice holds only idle running models, none the replica needs, and is closed under running transitive dependents |
| PauseDecision.ChoiceFreesRoom | cortexgrid/_model_scheduler.py:263-304 | a choice that pauses anything is made only when no node has room, and leaves enough free on some node |
| PauseDecision.ChoosesIffPossible | cortexgrid/_model_scheduler.py:250-304 | while no node has room, something is chosen exactly when some idle, dependents-closed set sparing the replica's needs would make room on some node |
| PauseDecision.DecisionIsSafe | cortexgrid/_model_scheduler.py:212-241 | over all waiting replicas: only running models without requests, no model chosen for two replicas, each choice spares its own replica's class and all that requires |
| PauseDecision.DecisionLeavesNoDependent | cortexgrid/_model_scheduler.py:212-241 | the whole decision is closed under running transitive dependents |
| PauseDecision.DecisionIsComplete | cortexgrid/_model_scheduler.py:229-240 | each replica's choice is empty if a node has room for it; if none has, it is empty exactly when nothing the earlier choices left over would help |
| PauseDecision.SmallerSetMaySuffice | docs/cortexgrid/model-serving.md:183 | a cluster, two idle models and a replica for which the choice is both models although one of them alone may be paused and makes room |
| PauseMinimality.AlwaysFewestIff | docs/cortexgrid/model-serving.md:183 | on a node the shortest sufficient prefix has the fewest models for every need and in every order exactly when the node's groups are interchangeable |
| PauseMinimality.NodeAlwaysFewestIff | cortexgrid/_model_scheduler.py:283-304 | the same of the search itself: for all times of last use and all needs it finds at most as many models as any set that may be paused and makes room, exactly under that condition |
| PauseMinimality.AloneInterchangeableIff | cortexgrid/_model_scheduler.py:283-304 | models that nothing running requires are interchangeable exactly when all hold the same |
| PauseMinimality.ChoiceIsFewest | cortexgrid/_model_scheduler.py:263-281 | with interchangeable groups on every node, no set that may be paused and makes room on any node has fewer models than the choice |
| PauseMinimality.LuckyOrder | docs/cortexgrid/model-serving.md:183 | a node, a need and an order for which the prefix is the fewest although the groups are not interchangeable |
| ClusterOccupancy.ReadClusterOccupancy | cortexgrid/_model_scheduler.py:314-349 | for every alive node: free is the total less what placed actors reserve, and each known model holds exactly what its placed replicas reserve; waiting replicas are listed in order |
| ClusterOccupancy.AliveNodesMeaning | cortexgrid/_model_scheduler.py:315-319 | a node counts exactly if Ray lists it alive, with what its last such entry lists |
| ClusterOccupancy.AliveNodesInOrder | cortexgrid/_model_scheduler.py:315-319 | nodes come in the order of their first alive entries |
| ClusterOccupancy.BooksMeaning | cortexgrid/_model_scheduler.py:325-345 | on a balanced node, in Ray's own fields: free is the total less the sum of what the actors there require, a class is held exactly if it is scheduled and has an actor there, and holds the sum of what its actors there require |
| ClusterOccupancy.WaitingMeaning | cortexgrid/_model_scheduler.py:327-335 | exactly the actors pending creation on no node whose class starts with ServeReplica: wait, each as often as listed, in that order, for what it requires |
| ClusterOccupancy.Conservation | cortexgrid/_model_scheduler.py:314-349 | on every such node each resource's total is free plus what models hold plus what other placed actors reserve; waiting replicas are charged nowhere |
| ClusterOccupancy.NoDebt | cortexgrid/_model_scheduler.py:340-345 | with no negative reservation, no model holds a negative amount, which completeness asks for |
| ModelReports.MemoryMeaning | cortexgrid/_model_scheduler.py:188-210 | over any sequence of reports and forgettings: a model is known exactly if it was not forgotten since its last report, as it reported last; its last request is its last report with requests since it was last forgotten, or 0.0 |
| ModelReports.MemoryOrder | cortexgrid/_model_scheduler.py:188-210 | models are kept in the order in which they first reported since they were last forgotten |
| ModelReports.HeardSince | cortexgrid/_model_scheduler.py:205-210 | keeps exactly the models heard from since the cutoff, unchanged |
| ModelScheduler.ChooseFor | cortexgrid/_model_scheduler.py:231-240 | one waiting replica gets a choice out of the models still running |
| ModelScheduler.DecideFor | cortexgrid/_model_scheduler.py:224-241 | the replicas in turn, each out of what the earlier ones left, and the union of the choices |
| ModelScheduler.Scheduler.RecordActivityAndCheckPause | cortexgrid/_model_scheduler.py:172-203 | the actor's whole new state: its memory takes the report and, if a second has passed, forgets who was silent for thirty and decides afresh; a model that reports requests when a decision is due is not told to pause |
| ModelScheduler.SeenWaitingMeaning | cortexgrid/_model_scheduler.py:217-220 | exactly the actors waiting for room are kept, each with the time it was first seen if it waited before, else now |
| ModelScheduler.WaitingLongestFirstMeaning | cortexgrid/_model_scheduler.py:221-224 | the same replicas, those seen waiting earlier first, and as listed among those first seen at one time |
| ModelScheduler.BusyIsNotSelected | cortexgrid/_model_scheduler.py:250-261 | a model with requests is in no decision |
| ModelScheduler.Scheduler.SelectModelsToPause | cortexgrid/_model_scheduler.py:212-241 | no decision while nothing waits; otherwise a decision over the balanced books, the replicas seen waiting longest first |
| ModelScheduler.DecidedOnIsSafe | cortexgrid/_model_scheduler.py:212-241 | in terms of Ray's nodes and actors: what is to be paused is placed and idle, and nothing placed that requires it is left out |
| ModelScheduler.DecidedOnIsComplete | cortexgrid/_model_scheduler.py:212-241 | in the same terms, with no negative reservation: each replica gets nothing if some node has room, and otherwise nothing exactly when no set left over that may be paused would make room on an alive node |
| RayIds.SubmissionIdText | cortexgrid/ray_util.py:112-116 | the id is run, job and attempt, with dashes between |
| RayIds.AttemptMeaning | cortexgrid/ray_util.py:119-125 | an id has an attempt exactly if digits follow its last dash, and it is what these stand for in base ten |
| RayIds.AttemptParsesBack | cortexgrid/ray_util.py:112-125 | the attempt parsed from a submission id is the one it was built with |
| RayIds.PrefixMatchesOwnOnly | jobs_control_plane/server.py:144-145 | a job's prefix starts exactly its own submission ids, never another job's |
| RayIds.CoreIdentifies | jobs_control_plane/server.py:184-185 | two jobs never share an entry of the dict in flight |
| RayIds.SubmissionIdIdentifies | cortexgrid/ray_util.py:112-116 | a submission id determines job and attempt |
| RayIds.LatestSubmission | cortexgrid/ray_util.py:42-49 | raises exactly if an id with the prefix has no attempt; else None exactly when no id starts with the prefix, and otherwise the first with the largest attempt |
| RayIds.OthersMayBeListed | jobs_control_plane/server.py:144-145 | a listing of all jobs' submissions, deleted ones included, is one of the recorded jobs' own: no other job's id carries their prefixes |
| RayIds.LatestIsLargestAttempt | cortexgrid/ray_util.py:42-49 | over any listing of jobs' submissions the match is the job's own numerically largest attempt (10 after 9) |
| Decimal.NumeralIsPositional | cortexgrid/ray_util.py:112-116 | the attempt in an id is written in base ten without leading zeros |
| JobRecords.LastReportedIff | jobs_control_plane/server.py:217-221 | a last reported state exists exactly when some event came from Ray, and it is never PENDING |
| JobRecords.DispatchMeaning | jobs_control_plane/server.py:205-255 | a job is dispatched exactly when no stop is requested and it is a first attempt never seen in Ray, or a retry after a failure, one after the attempt that failed |
| JobRecords.SeenOnceIsNotDispatched | jobs_control_plane/server.py:216-255 | a job without retry that Ray has reported is not dispatched, whatever Ray still lists |
| JobRecords.DocumentedAgreesIff | cortexgrid/ray_util.py:61-77 | the docstring's reading of a submission is the code's exactly when Ray does not queue it |
| JobRecords.DocumentedDecidesAlikeIff | jobs_control_plane/server.py:205-255 | the poll would decide alike under both exactly when Ray does not queue the submission or a stop is requested; else the documented reading dispatches the job afresh |
| PollMeaning.OpenIffNotDone | jobs_control_plane/db.py:177-178 | a job is open exactly while it has no history, or its last state is pending or running, or failed with retry |
| PollMeaning.LastReportedMeaning | jobs_control_plane/server.py:217-221 | the last reported state is that of the last event with a submission |
| PollMeaning.PollMeans | jobs_control_plane/server.py:114-255 | in Ray's own words: the record's last event becomes attempt n and finished exactly if Ray says SUCCEEDED of its largest attempt n, failed, stopped and running likewise, or attempt 0 pending if Ray holds none; what is submitted and what is stopped follows from that, the latch, retry and the last state Ray reported |
| PollMeaning.PollWrites | jobs_control_plane/server.py:114-134 | on a history written by polls the last event carries its submission, and stays so |
| JobTheorems.HistoryIsWritten | jobs_control_plane/server.py:114-134 | along every run the history is one written by polls |
| JobMachine.BasicsKept | jobs_control_plane/server.py:198-264 | every step keeps: the cycle's copy agrees with the record but for a stop set since, and Ray's reports are never recorded as PENDING |
| JobSafety.WorkerStepShape | jobs_control_plane/server.py:63-111 | whatever a worker does, it brings at most its own attempt to Ray, and only if Ray does not hold it |
| JobSafety.TrackedKept | jobs_control_plane/server.py:151-264 | while no cycle loses track of a worker, every step keeps that the dict holds the one unfinished worker, that only the latest attempt is live, and that done jobs are quiet |
| JobSafety.ContiguousKept | jobs_control_plane/server.py:205-255 | while Ray keeps its store, every step keeps that attempts are contiguous and every later one follows a failure |
| JobSafety.RunHasInv | jobs_control_plane/server.py:275-290 | every state of every run satisfies the invariant |
| JobTheorems.AtMostOneLive | jobs_control_plane/server.py:151-255 | at most one live attempt per job at every state, unless a cycle lost a worker and Ray its store; while no cycle lost a worker, none is live and Ray does not hold the worker's own attempt as long as a worker has yet to submit: it has not tried, or it is to fall back and its attempt is not in Ray |
| JobTheorems.AttemptsAreRetries | jobs_control_plane/server.py:240-255 | while Ray keeps its store, the attempts are exactly 0..n-1 and all but the last have failed |
| JobTheorems.LatchNeverClears | jobs_control_plane/db.py:145-182 | along every run, stale saves included, the stop latch is never cleared and the retry flag never changes |
| JobTheorems.StopIsHeeded | jobs_control_plane/server.py:77-111 | while no cycle has lost a worker: after the latch is set at most one more submission reaches Ray, two if Ray loses its store after the first of them, and a cycle begun after the latch that came past the job with no worker under way has itself asked Ray to stop whatever is live |
| JobStops.LateSubmissionsBounded | jobs_control_plane/server.py:63-111 | from any state after the stop on, along every run, lost workers and lost stores included: no more submissions reach Ray than that state's workers and the cycle under way can still bring |
| JobStops.StopBound | jobs_control_plane/server.py:77-111 | for every run, counted from the stop: at most one submission for each worker then unfinished and one for a cycle that had read the job, or two for each worker if Ray loses its store later |
| JobTheorems.NotOpenIsDone | jobs_control_plane/db.py:177-178 | a cycle skips a job as not open only when its record is done |
| JobTheorems.DoneForGood | k8s/charts/cortexgrid/files/postgres/cortexgrid_schema.sql:39-42 | a job whose history makes it done keeps that history and is not dispatched again, even if Ray forgets everything, unless both a cycle lost a worker and Ray its store |
| JobTheorems.SeenOnceForGood | jobs_control_plane/server.py:216-225 | a job without retry once seen in Ray is never dispatched again, whatever is lost and whatever raises |
| JobTheorems.SeenOnceNeverSubmitted | jobs_control_plane/server.py:216-255 | and nothing of it reaches Ray again while workers are tracked |
| ControlPlane.Poller.ProcessJobsInFlight | jobs_control_plane/server.py:151-173 | keeps exactly the entries whose future is not done |
| ControlPlane.Poller.GetJobsForProcessing | jobs_control_plane/server.py:137-188 | one pair for every open job not in flight, each with its own latest submission, and no other |
| ControlPlane.Poller.AskRay | cortexgrid/ray_util.py:61-77 | the latest attempt and Ray's status of it; queued counts as running, never submitted as pending |
| ControlPlane.Poller.RecordState | jobs_control_plane/server.py:114-134 | appends an event exactly when attempt or state changed, through a merge that keeps the latch |
| ControlPlane.Poller.CarryOut | jobs_control_plane/server.py:205-255 | stops, dispatches or leaves alone as decided, with exactly the calls and dict entry that go with it |
| ControlPlane.Poller.HandlePair | jobs_control_plane/server.py:202-255 | one turn of the loop changes this job's record, dict entry and calls, and no other job's |
| ControlPlane.Poller.PollOnce | jobs_control_plane/server.py:191-264 | one cycle does to every job what the job alone would get; told by the records, Ray's stores and the dict alone: every open job without a worker has what Ray says of its largest attempt recorded, with at most one new event, and no other changes; exactly the attempts due are submitted, each once, and exactly those due are stopped; the dict holds what was kept, unchanged, and one new entry per submission |
| JobRuns.PollIsACycle | jobs_control_plane/server.py:191-264 | what `PollOnce` answers for a job is where the job's machine gets to by one uninterrupted cycle: record, workers, entry and stop request |
| JobRuns.TwoLiveAttempts | jobs_control_plane/server.py:284-290 | a run in which a raising cycle lost a worker and Ray its store, with two live attempts of one job |
| JobRuns.TwoLateSubmissions | jobs_control_plane/server.py:97-110 | a run that tracks every worker and in which two submissions of one attempt reach Ray after the stop, its store lost in between |
| JobRuns.TwoLateByLostWorker | jobs_control_plane/server.py:240-255 | a run in which a cycle lost a worker, Ray kept its store, and two submissions reach Ray after the stop |
| JobRuns.DoneJobDispatchedAgain | jobs_control_plane/server.py:240-255 | a run that lost a worker and Ray's store, at whose end the poll dispatches a job whose record is done |
| JobRuns.DocumentedReadingBreaksFinality | cortexgrid/ray_util.py:61-77 | a reachable state of a job without retry, seen in Ray and queued there, that the next poll leaves alone and the documented reading would dispatch again |
| StreamEvents.DiffDict | cortexgrid_ui/backend/utils/keyed_stream.py:244-254 | one event per id that differs, of the kind the difference calls for, and no other |
| StreamEvents.DiffReaches | cortexgrid_ui/frontend/src/useStreamList.ts:31-43 | folding a diff takes the old items to the new ones |
| StreamEvents.LeftOverAgreesIff | cortexgrid_ui/frontend/src/useStreamList.ts:31-46 | whatever a new connection brings, a map kept from before agrees with a fresh one exactly when every left-over id is touched |
| StreamEvents.ReconnectAgreesIff | cortexgrid_ui/frontend/src/useStreamList.ts:44-46 | after a reconnect the kept map agrees with a fresh client's exactly when every left-over id the snapshot lacks has been touched by an event since |
| KeyedStream.BroadcastToOne | cortexgrid_ui/backend/utils/keyed_stream.py:234-241 | a listener subscribed once gets every event once, in order |
| KeyedStream.OthersKeepInStep | cortexgrid_ui/backend/utils/keyed_stream.py:134-241 | polls, writes and other listeners coming and going keep a connection in step with its topics |
| KeyedStream.JoinKeepsInStep | cortexgrid_ui/backend/utils/keyed_stream.py:307-318 | joining a further topic keeps it in step although the new snapshot goes out before events already queued |
| KeyedStream.MoveKeepsInStep | cortexgrid_ui/backend/utils/keyed_stream.py:287-335 | every step of anyone keeps the connection in step |
| KeyedStream.RunStaysInStep | cortexgrid_ui/backend/utils/keyed_stream.py:287-335 | along every run over topics with disjoint ids: frames sent, replay to send and queue fold to the union of the joined topics' caches |
| KeyedStream.CaughtUpOnOneTopic | cortexgrid_ui/backend/utils/keyed_stream.py:273-284 | a client of one topic that has received everything holds exactly the topic's cache |
| KeyedStream.ReconnectedShowsCacheIff | cortexgrid_ui/frontend/src/useStreamList.ts:44-46 | a caught-up client that came with a left-over map shows the topic's cache exactly when every left-over id was touched by a frame |
| KeyedStream.StaleAfterReconnect | cortexgrid_ui/frontend/src/useStreamList.ts:44-46 | two runs of one client, an item gone in between: caught up and after a poll it still shows the item |
| Refresher.Refresher.PollEnds | cortexgrid_ui/backend/utils/keyed_stream.py:217-232 | the second locked section is a step of the machine, without effect if the topic changed since the poll began; else the topic's cache is what was polled, and whoever is registered has a diff from the old items to these |
| Refresher.Refresher.Send | cortexgrid_ui/backend/utils/keyed_stream.py:234-241 | hands the events, in order, to each of the topic's listeners and to nobody else |
| Refresher.Refresher.UpdateOrInsert | cortexgrid_ui/backend/utils/keyed_stream.py:158-178 | is the machine's step: nothing without listeners; else the topic's cache has the item, all else in the caches stays, and whoever is registered has one event more, added or updated as the item is new or not |
| Refresher.Refresher.Remove | cortexgrid_ui/backend/utils/keyed_stream.py:180-193 | is the machine's step: nothing without listeners or item; else the item is gone from the topic's cache, all else stays, and whoever is registered has one event more |
| Refresher.Refresher.SubscribeAndSnapshot | cortexgrid_ui/backend/utils/keyed_stream.py:134-156 | is the machine's step: the listener is registered last, nothing else changes, and the snapshot is the cache at that very step |
| Refresher.Refresher.Unsubscribe | cortexgrid_ui/backend/utils/keyed_stream.py:195-205 | is the machine's step: one listener removed, and the cache cleared with the last |
| Regex.StarTakesRun | k8s/seed/scripts/cortexgrid_head.py:38-43 | a greedy run that ends where its class does, and goes on there, is taken whole |
| EnvFormat.ParseEnv | k8s/seed/scripts/cortexgrid_head.py:47-60 | the loop assigns the matches in order, later ones winning |
| EnvFormat.FormatEnv | k8s/seed/scripts/cortexgrid_head.py:63-73 | one line per entry, in the dict's order |
| EnvFormat.EscapeIsPerCharacter | k8s/seed/scripts/cortexgrid_head.py:66-71 | the four chained replaces escape character by character |
| EnvFormat.UnescapeEscape | k8s/seed/scripts/cortexgrid_head.py:51-55 | unescaping undoes escaping, for every string |
| EnvRoundTrip.BodyEndsAtQuote | k8s/seed/scripts/cortexgrid_head.py:40 | the quoted scan stops exactly at the closing quote of a printed value |
| EnvRoundTrip.ExportedFails | k8s/seed/scripts/cortexgrid_head.py:39 | no printed key is taken for the word export |
| EnvRoundTrip.EntryMatches | k8s/seed/scripts/cortexgrid_head.py:38-43 | a printed line matches as exactly that line, with its key and value where they stand |
| EnvRoundTrip.FindsTheRest | k8s/seed/scripts/cortexgrid_head.py:49 | from the start of any printed line, exactly the printed entries are found: none bleeds into the next |
| EnvRoundTrip.FormatThenParse | k8s/seed/scripts/cortexgrid_head.py:47-73 | parse_env(format_env(m)) = m for all valid keys and arbitrary values, order included |
| EnvRoundTrip.ParsedKeysValid | k8s/seed/scripts/cortexgrid_head.py:38-60 | whatever the file holds, only valid keys are read |
| EnvRoundTrip.RewriteKeepsValues | k8s/seed/scripts/cortexgrid_head.py:89-115 | rewriting any file, hand-edited or not, changes no parsed value |
| EnvRoundTrip.ValidKeyMeaning | k8s/seed/scripts/cortexgrid_head.py:37-39 | a key is one or more ASCII letters, digits, underscores, dots and dashes |
| EnvHandWritten.TailFails | k8s/seed/scripts/cortexgrid_head.py:40-41 | a bare value does not end before its last character |
| EnvHandWritten.NotExported | k8s/seed/scripts/cortexgrid_head.py:39 | no key is taken for the word export, not even that word |
| EnvHandWritten.UnescapeMeans | k8s/seed/scripts/cortexgrid_head.py:50-55 | piece by piece: four escapes stand for a character, any other is kept as written |
| EnvHandWritten.LineMatches | k8s/seed/scripts/cortexgrid_head.py:38-43 | a line that assigns is matched whole, indentation, export and comment included, with key and value where they stand |
| EnvHandWritten.HandWrittenReads | k8s/seed/scripts/cortexgrid_head.py:47-60 | a file of lines that assign bare, single-quoted or double-quoted values, of comments and of blank lines is read as what its lines assign, in order |
| EnvHandWritten.EnteredMeaning | k8s/seed/scripts/cortexgrid_head.py:47-60 | a key has the value of the last line that assigns it |
| EnvFileStore.UniversalNewlinesMeaning | k8s/seed/scripts/cortexgrid_head.py:104 | a line ending of any of the three kinds is read as one newline |
| EnvFileStore.HandWrittenFileReads | k8s/seed/scripts/cortexgrid_head.py:101-104 | a file written by hand is read as it is meant, and a missing one as empty |
| Sorting.StringLeMeaning | k8s/seed/scripts/cortexgrid_head.py:81-83 | strings are ordered by the first character in which they differ, a prefix first |
| EnvFileStore.WriteThenRead | k8s/seed/scripts/cortexgrid_head.py:101-115 | what is written is read next, universal newlines included |
| EnvFileStore.Store.List | k8s/seed/scripts/cortexgrid_head.py:81-83 | the ids of the map, each once, in string order |
| EnvFileStore.Store.Get | k8s/seed/scripts/cortexgrid_head.py:85-87 | the map's value, or None |
| EnvFileStore.Store.Set | k8s/seed/scripts/cortexgrid_head.py:89-93 | with an id the handler accepts the map is updated at that id and nowhere else; with any other the value is never read back |
| EnvFileStore.Store.Delete | k8s/seed/scripts/cortexgrid_head.py:95-99 | the id leaves the map, all else stays; a missing id leaves the very file |
| Bundle.InitChain | cortexgrid/_bundle.py:326-331 | the climb ends and yields the __init__ files above the file |
| Bundle.BundleOf | cortexgrid/_bundle.py:73-101 | ends on every import graph with exactly the local files reached and exactly the owners of the installed files reached; fails exactly when some reached file has no owner |
| Bundle.MergeBundlesBoth | cortexgrid/_bundle.py:50-54 | merging the bundles of two sets of seeds is a bundle of both; where both name a distribution the second's version stands |
| Bundle.BundleIsUniqueIff | cortexgrid/_bundle.py:50-101 | seeds that have a bundle have only one, whatever the order of worklist and merges, exactly when the installed files they reach agree on one version of each distribution |
| BundleClosure.NeededIffLeadsTo | cortexgrid/_bundle.py:94-100 | a file leads exactly to what it imports, if it is a .py file, and to the __init__ files of the unbroken run of packages above it; an installed one to nothing |
| BundleClosure.IsBundleIff | cortexgrid/_bundle.py:73-101 | a bundle is exactly what covers the seeds and all that its files lead to, an installed file by its owner, and is the smallest such, every distribution owning a file that is called for at its version |
| BundleClosure.UnownedHasNoBundle | cortexgrid/_bundle.py:84-92 | with an installed file that nothing owns the seeds have no bundle |
| BundleClosure.ImportPathMeaning | cortexgrid/_bundle.py:344-355 | a file stages at its path below the first directory above it that is no package |
| Bundle.InitsStageAlongside | cortexgrid/_bundle.py:326-355 | a file's __init__ files stage under the same root, each in a directory above the file: packages are staged whole |
| DistributionClosure.Dependencies | cortexgrid/_bundle.py:186-196 | exactly the applicable requirements of a distribution under the extras asked for |
| DistributionClosure.ClosureOf | cortexgrid/_bundle.py:167-197 | exactly the names of the (name, extras) pairs reachable from the requirements, whatever the worklist order; told by the metadata, of the smallest set that holds the requirements and, with each pair, whatever its distribution asks for with a marker that holds under one of its extras, or under none if it has none |
| Digest.FrameReadsBack | cortexgrid/_bundle.py:122-124 | a frame at the front of a stream can be read only one way |
| Digest.StreamInjective | cortexgrid/_bundle.py:121-124 | a stream determines its entries |
| StagedDigest.ComponentsOfPosix | cortexgrid/_bundle.py:121 | the text of an import path, taken apart at its slashes, is the path |
| StagedDigest.PosixInjective | cortexgrid/_bundle.py:121 | the text of an import path determines the path |
| StagedDigest.PathLeMeaning | cortexgrid/_bundle.py:121 | paths are ordered by the first component in which they differ, a path before what is below it |
| StagedDigest.DigestedBytes | cortexgrid/_bundle.py:116-125 | the bytes fed to the hash for any set of files are the frames of all of them, by import path, and of one import path by where they live |
| StagedDigest.HashedAsLocated | cortexgrid/_bundle.py:121 | in the order of the hash the files of one import path are all there, in the order of their own paths |
| StagedDigest.SameUnderEach | cortexgrid/_bundle.py:121-124 | entries in path order are determined by the contents under each path |
| StagedDigest.SameBytesIffSameContents | cortexgrid/_bundle.py:116-125 | two sets of files give the same bytes exactly when at each import path the same contents stage, in the order of where their files live |
| StagedDigest.SameBytesIffStagedAlike | cortexgrid/_bundle.py:104-125 | two sets of files that stage at different paths, wherever they live, give the same bytes exactly when they stage alike: the same contents at the same import paths |
| StagedDigest.LocationsCount | cortexgrid/_bundle.py:116-125 | two files of one import path that swap their contents, so that the same contents stage, and the bytes differ |
| ClusterConfig.WorkerStepsMeaning | k8s/seed/worker.py:24-36 | on the head's own host a worker is only labelled; on any other it is installed, joins the cluster and is labelled, in this order |
| ClusterConfig.HeadStepsMeaning | k8s/seed/head.py:20-57 | every head takes the head's steps in the one order, Terraform's outputs on AWS only, the credentials of Postgres and MinIO on-prem only |
| ClusterConfig.RemovedMeaning | k8s/seed/cli.py:226-228 | the first occurrence of the step goes, all else stays |
| ClusterConfig.ConfigFile.RecordStep | k8s/seed/cli.py:218-229 | adds a missing step or removes a present one of the entry, and nothing else; no entry, no effect |
| ClusterConfig.ConfigFile.RunSetup | k8s/seed/pipeline.py:73-77 | wherever it stops, `done` is a prefix of the role's steps that extends what was done; all of them if it completes, which it does exactly if every step comes through |
| ClusterConfig.ConfigFile.RunTeardown | k8s/seed/pipeline.py:79-83 | wherever it stops, `done` is a prefix of what was done; empty if it completes, which it does exactly if every step comes through |
| ClusterCli.HeadEntryValid | k8s/seed/cli.py:146-165 | an accepted head puts no worker on another pipeline |
| ClusterCli.WorkerEntryValid | k8s/seed/cli.py:168-179 | an accepted worker keeps hosts pairwise distinct |
| ClusterCli.WithoutWorkerMeaning | k8s/seed/cli.py:209-215 | forgetting a worker drops its entry alone and keeps the others' order |
| ClusterCli.AddHead | k8s/seed/cli.py:49-56 | refuses exactly if there is a head of another host, profile or storage, or none and a worker on the host; without its first save nothing changes; otherwise only the head's entry changes and its `done` grows; it completes, every step done, exactly if the first save and every step come through |
| ClusterCli.AddWorker | k8s/seed/cli.py:67-72 | refuses exactly if the worker is on another host or another worker on this one; without its first save nothing changes; otherwise only this worker's entry changes and its `done` grows; it completes, every step done, exactly if the first save and every step come through |
| ClusterCli.DelWorker | k8s/seed/cli.py:75-82 | refuses exactly an unknown alias; otherwise the worker is gone, or stays with a shorter `done` |
| ClusterCli.DelHead | k8s/seed/cli.py:85-96 | refuses exactly without a head or while workers remain; otherwise the head is gone, exactly if every save and the stack's destruction come through, or stays with a shorter `done` |
| ClusterCli.DelAll | k8s/seed/cli.py:99-106 | leaves nothing if it completes; wherever it fails only old entries are left, none further on, and the head with any worker |
| ClusterCli.Restart | k8s/seed/cli.py:109-140 | completed: the same head and the same workers in order, every step done; failed: every worker left is an old one at its old host, and the head's entry is lost exactly if the command stops between forgetting it and adding it again |
| ModelDeploy.Deployer.SpecsExcept | cortexgrid/model_serving/lifecycle.py:45-60 | the stored specs, one per name, without the named app's |
| ModelDeploy.Deployer.WaitRunning | cortexgrid/model_serving/lifecycle.py:102-131 | only looks, and ends having seen RUNNING, a failure, no app, or the deadline |
| ModelDeploy.Deployer.ClearFailed | cortexgrid/model_serving/lifecycle.py:205-230 | removes only an app just seen failed, and succeeds only when the app was last seen neither failed nor being deleted |
| ModelDeploy.Deployer.PutUnlessThere | cortexgrid/model_serving/lifecycle.py:233-249 | the app's stored spec is replaced and every other kept; no PUT restates a spec that is already the target |
| ModelDeploy.Deployer.Undeploy | cortexgrid/model_serving/lifecycle.py:451-456 | removes the app's spec and record, and no other |
| ModelDeploy.PhaseMeaning | cortexgrid/model_serving/status.py:164-179 | a RUNNING app is paused exactly if it has deployments and all are to have no replica, and deploying exactly if some are to run and none does; any other app has the controller's status |
| ModelDeploy.Deployer.LookUp | cortexgrid/model_serving/lifecycle.py:363 | the record looked up is the one stored at that moment |
| ModelDeploy.Deployer.AnswerOrPlace | cortexgrid/model_serving/lifecycle.py:361-404 | answers from the record exactly if it is paused, running, deploying, not started or unhealthy and of the spec built for its own tiers; else the app was last seen neither failed nor being deleted before its spec was stored |
| ModelDeploy.ObservationsAgreeIff | cortexgrid/model_serving/lifecycle.py:291-300 | what a deploy records of an app agrees with the control plane's own look exactly while the controller lists the app; else the record stands for a live app that does not exist |
| ModelDeploy.Deployer.PutRecord | cortexgrid/model_serving/lifecycle.py:393-404 | the record holds the spec, the tiers and the phase as the deploy observes it |
| ModelDeploy.Deployer.RecordAfterOthersPut | cortexgrid/model_serving/lifecycle.py:93-95 | if another caller's PUT drops the app before the record is written, the record says deploying, and is current for a redeploy, of an app that does not exist |
| ModelDeploy.Deployer.DeployItself | cortexgrid/model_serving/lifecycle.py:361-412 | with all requirements settled: lawful events about the app alone, a record holding exactly the spec asked for, RUNNING seen if waited for, and the answer from the record exactly if the record looked up is of a live app and of this spec |
| ModelDeploy.Deployer.Deploy | cortexgrid/model_serving/lifecycle.py:303-419 | ends on acyclic requirements; every PUT that adds an app comes after each transitively required app was seen RUNNING and has not been PUT since, keeps every other stored spec and names no app twice; the answer comes from the record exactly if, as looked up, its phase is paused, running, deploying, not started or unhealthy and its spec the one built for its tiers, and otherwise the app was last seen neither failed nor being deleted before its spec was stored |
| ModelDeploy.RequiredIsBelow | cortexgrid/model_serving/lifecycle.py:350-360 | on an acyclic graph each recursive call is about strictly fewer requirements |
| ModelDeploy.UntouchedKeepsSpec | cortexgrid/model_serving/lifecycle.py:395-404 | over any lawful run, an app never PUT or removed keeps its stored spec, or its absence |
| ModelDeploy.RunKeepsOthers | cortexgrid/model_serving/lifecycle.py:395-404 | a deploy changes stored specs only of the app and what it requires |
| ModelDeploy.LawfulExtends | cortexgrid/model_serving/lifecycle.py:303-419 | deploys one after the other make one lawful run |

## Left out

- HTTP, S3, MLflow, Postgres, Ray, SSH, kubectl, terraform and systemd calls: environment steps, inputs or maps.
- ModelAutoscalingPolicy and the state API's result limit: the scheduler's view is taken as complete.
- Floating-point rounding: resources and times are reals; the tolerance of the comparison is kept.
- PauseMinimality.ChoiceIsFewest: one direction only; for one need, one order and several nodes a smaller set may be
  missing by luck (`PauseMinimality.LuckyOrder`) or because another node helps out, and telling whether it is means
  searching all sets. The condition is exact over all needs and orders of a node
  (`PauseMinimality.NodeAlwaysFewestIff`).
- Joint sufficiency: node books are not updated between waiting replicas, so sufficiency is per replica.
- ControlPlane.Poller.RecordState: does not model the `start` and `end` times of history events, which steer nothing.
- ControlPlane.Poller.ProcessJobsInFlight: does not model a failed worker's exception being saved as `error` in the last
  event, which steers nothing.
- ControlPlane.Poller.GetJobsForProcessing: asks that no id in Ray carries a recorded job's prefix without being one of
  its submissions (`RayIds.OthersMayBeListed`); one that no job made may make the match raise
  (`RayIds.LatestSubmission`). Digits beyond ASCII are not modelled.
- Deleting runs and their jobs, and creating jobs: each job of the model starts as just recorded.
- Fairness: nothing says that a cycle, a worker or a listener ever gets its turn.
- A topic without listeners may have its cache filled again by a late poll; the model allows it and claims nothing.
- Leaving a connection, and listeners that raise or block: broadcasting puts into unbounded queues and runs in one
  piece.
- Item ids are strings and carried by their items, as the poll and write functions make them.
- UTF-8, lone surrogates, and the crash-atomic rename of the env file: the file is one string, replaced whole.
- Env-file lines that are neither assignments, comments nor blank, and quoted values that go on after their quote: of
  these only `EnvRoundTrip.ParsedKeysValid` and `EnvRoundTrip.RewriteKeepsValues` speak.
- HTTP routing and id checks of the secrets server, apart from the set of valid ids.
- Import resolution, symbolic links, AST walking and canonical names: given as maps; markers depend on the extra alone.
- A package at the root directory: climbing from it would not end, so a file system with one is not valid.
- SHA-256: nothing is claimed past the byte stream.
- Concurrent `cg` commands, `add aws head` beyond `add head`, and the checks of `.env.head` before a command begins.
- What `stage` keeps of files that stage on top of each other: the one it copies last, in the order of a set.
- ModelDeploy.Deployer.Deploy: acyclic requirements are asked for, because the source's recursion never ends on a cycle.
- Concurrent deploys: a PUT of one can drop another's app, as the source says; the claims are for one caller at a time.
- Calls with no deadline that never return, failing PUTs, bundle fingerprints, urls and experiment names of deployments,
  and registry entries changed while a deploy runs.
- React components, UI polls and routes, model storage, checkpoints, placement and tag mappings: thin or easy.
