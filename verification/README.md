# Pool classifier: a verified model

This project models the parts of the pool classifier that decide something from time-stamped records, and proves
what those parts promise. `dafny verify dfyconfig.toml` checks all of it.

The model has four connected parts.

1. **Capacity replay** (`Fifo`, `QueueDepth`, `Replay`, `Scenarios`, `CapacityPlan`). `Fifo` says what a replay means
   without an event loop: jobs start in arrival order, each at the first instant at which fewer earlier jobs hold a
   host than there are hosts; `QueueDepth` says how long its queue gets. `Replay` is the event loop and computes
   exactly that schedule and depth. More hosts or a shorter turnaround never start a job later, so the verdict is
   monotone in the host delta and the binary search in `Scenarios` is exact. `CapacityPlan` carries this to the whole
   report, which the question determines.
2. **Utilization** (`Intervals`, `Durations`, `PointSums`, `Availability`, `WorkerTime`, `Utilization`,
   `UtilizationSummary`). Intervals are sets of instants; a duration is a count of instants. Merging, the two-index
   sweep, the resolution of late availability events, the bucket loop and the pool-wide step function are all proved
   against what they say of a single instant. The windowed queries are proved to lose nothing inside the window;
   what a capacity replay keeps in force after the window's end is the one thing they can miss.
3. **Task-run collection** (`TaskRuns`, `Continuity`, `CollectionSteps`, `Collector`, `Lifetimes`). `CollectionSteps`
   is a transition system whose states are commit points: a crash, an interrupt and a normal end are all a return to
   `Idle` with the durable database. The `Collector` class performs the pass with the loops and storage calls of the
   original, and its contracts show that it only takes those transitions. `Lifetimes` lets passes die at any point and
   other processes take over the store. The Queue's answers are arbitrary inputs.
4. **Recorders and drain** (`Coverage`, `CoverageSafety`, `AvailabilityRecorder`, `Backfill`). The two recorders of
   observed time, what they guarantee over whole runs, and the start-lag drain.

`Sorting`, `OrderStatistics`, `Wrappers` and `Pool` are shared helpers.

## Conventions

- Instants and durations are integers in one unit; percentages and hours are given by their numerators and
  denominators. The rank of a percentile is the exact ceiling of `count * percent / 100`, less one.
- A heap is a sorted sequence, a table is a map from its key or a sequence of its rows, a dictionary whose order
  matters is a sequence of entries. An SQL query is the set of rows it selects and their order.
- Transition ids are distinct, as the primary key makes them. Task ids are numbers with the order of the originals.
- Timestamps that cannot be read appear as missing values.
- The clock, the fetched windows, the Queue's answers, failure labels and interrupts are parameters.
- Automatic induction is switched off on every lemma: each proof is the one written down.

Six behaviours differ from what a reader might expect, and are proved as they are in the code:

- A coverage summary does not merge touching intervals, so a fully covered range may be reported incomplete
  (`Coverage.FullButNotComplete`, and exactly when in `Coverage.CompleteIffFullAndUnbroken`).
- The number of removable hosts is 0 also when removing no host already fails (`Scenarios.RemovableHosts`, with a case
  in `Scenarios.NoneRemovableStillFails`).
- Windows are committed before the coverage verdict. If a pass dies in between, a proven gap can be covered later
  (`CoverageSafety.LostVerdict` says exactly when, `CoverageSafety.LostVerdictHappens` shows a case).
- A worker that one pass lists twice is judged by its last non-empty window, so a gap its first window proves can be
  recorded as a success and covered (`CoverageSafety.ListedTwice`; exactly when in `CoverageSafety.GapVerdict` and
  `CoverageSafety.GapCanBeCovered`).
- The windowed transition query excludes the end of its range, but a replay keeps the headcount of that instant in
  force afterwards. A headcount change that takes effect exactly there is missed (`CapacityPlan.WindowedModel`), and
  that can change the verdict (`CapacityPlan.WindowChangesVerdict`).
- Enriching a run's schedule overwrites its creation reason, also with nothing (`Backfill.ReasonLost`).

## Model

| member | source | states |
|---|---|---|
| Fifo.ScheduleUnique | worker_health/pool_classifier_web/capacity_scenarios.py:96-141 | the FIFO rule (each job at the first instant, not before its arrival or its predecessor's start, with a free host; the rest never) has only one schedule |
| Fifo.ScheduleByHosts | worker_health/pool_classifier_web/capacity_scenarios.py:124-127 | each job starts at the first instant, not before its arrival or its predecessor's start, at which fewer earlier jobs hold a host, for their duration and the turnaround, than there are hosts |
| Fifo.CapacityInForce | worker_health/pool_classifier_web/capacity_scenarios.py:118-120 | the capacity is that of the last change at or before the instant, shifted and floored at zero |
| Fifo.TargetIsShare | worker_health/pool_classifier_web/capacity_scenarios.py:132-141 | the target is met iff there are jobs, all start, and at least 95 in 100 start within it |
| Fifo.Dominance | worker_health/pool_classifier_web/capacity_scenarios.py:96-141 | for any arrivals and any capacity over time, capacity nowhere smaller and service nowhere longer starts no job later and un-starts none |
| Fifo.MoreHostsNeverHurt | worker_health/pool_classifier_web/capacity_scenarios.py:118-141 | a larger host delta or a shorter turnaround starts no job later and never turns a pass into a fail |
| Fifo.PercentileNeverRises | worker_health/pool_classifier_web/capacity_scenarios.py:132-141 | once every job starts, more hosts or a shorter turnaround raise no percentile of the lags |
| Replay.ReplayQueue | worker_health/pool_classifier_web/capacity_scenarios.py:100-130 | the event loop ends; its lags are those of the FIFO schedule, with zero-length jobs, capacity drops and the early stop; its depth is the greatest at any instant before the replay is stuck |
| Replay.Round | worker_health/pool_classifier_web/capacity_scenarios.py:109-130 | one round keeps the schedule and the depth exact up to the next event, uses something up, and breaks only when the replay is stuck |
| QueueDepth.NeverStuckIfAllStart | worker_health/pool_classifier_web/capacity_scenarios.py:128-130 | a replay in which every job starts is never stuck, so its depth counts every instant |
| QueueDepth.PeakDepthUnique | worker_health/pool_classifier_web/capacity_scenarios.py:128 | the schedule determines the depth |
| Replay.AdvanceTo | worker_health/pool_classifier_web/capacity_scenarios.py:109-123 | moving to the next event frees the finished hosts, takes the last due change, queues the due arrivals, skips no instant at which the next job could start, and uses something up |
| Replay.StartQueued | worker_health/pool_classifier_web/capacity_scenarios.py:124-127 | every job started is at its FIFO start, and afterwards the queue is empty or the running jobs fill the capacity |
| Replay.PopCompleted | worker_health/pool_classifier_web/capacity_scenarios.py:116-117 | popping leaves exactly the hosts busy after now |
| Replay.ApplyChanges | worker_health/pool_classifier_web/capacity_scenarios.py:118-120 | the capacity kept is the effective capacity at now |
| OrderStatistics.Percentile | worker_health/pool_classifier_web/capacity_scenarios.py:33-37 | the value with at most rank values below it and more than rank at or below it; the list stays a permutation of itself |
| OrderStatistics.PercentileIsShare | worker_health/pool_classifier_web/capacity_scenarios.py:33-37 | a percentile is a value with at least that share of the values at or below it and less than that share below it |
| OrderStatistics.PointwiseOrderStatistic | worker_health/pool_classifier_web/capacity_scenarios.py:33-37 | pointwise smaller values have smaller order statistics |
| Scenarios.RunScenario | worker_health/pool_classifier_web/capacity_scenarios.py:96-142 | every reported field describes the FIFO schedule, and the verdict is that all jobs start with p95 in the target |
| Scenarios.ResultIsShare | worker_health/pool_classifier_web/capacity_scenarios.py:132-142 | the reported counts and percentiles are those of the jobs that start within the target or the lag |
| Scenarios.PassesMonotone | worker_health/pool_classifier_web/capacity_scenarios.py:211-214 | a larger delta keeps passing |
| Scenarios.CapacityThreshold | worker_health/pool_classifier_web/capacity_scenarios.py:145-176 | the search with the real scenario is exact: least passing delta, none passing iff none in the range passes, at or below iff all pass, with the removal counts reported |
| Scenarios.RemovableHosts | worker_health/pool_classifier_web/capacity_scenarios.py:171-176 | the removable count is the largest passing removal iff the least passing delta is not positive; else it is 0 and removing none fails |
| Scenarios.NoneRemovableStillFails | worker_health/pool_classifier_web/capacity_scenarios.py:171-176 | one job without a host: the least passing delta is 1, 0 is reported as removable, and removing none fails |
| Scenarios.NoArrivalsNeverPass | worker_health/pool_classifier_web/capacity_scenarios.py:141 | without arrivals no delta meets the target |
| CapacityPlan.CalculateCapacityScenarios | worker_health/pool_classifier_web/capacity_scenarios.py:179-256 | each error exactly when its check is the first to fail; otherwise the counts are those of the stored runs, and percentiles, the shown deltas and the threshold answer the question asked |
| CapacityPlan.ModelReplaysRuns | worker_health/pool_classifier_web/capacity_scenarios.py:195-208 | as many jobs arrive at an instant and run for a time as stored runs with all times in order were scheduled then in the range and took from start to end that long |
| CapacityPlan.ObservedPercentileIsShare | worker_health/pool_classifier_web/capacity_scenarios.py:208-236 | the observed percentiles are shares of the stored runs by how long after scheduling they started |
| CapacityPlan.CapacityIsAsked | worker_health/pool_classifier_web/capacity_scenarios.py:210-212 | at every instant the replayed capacity is the observed headcount plus the delta, not below zero |
| CapacityPlan.ModelsAgree | worker_health/pool_classifier_web/capacity_scenarios.py:195-212 | the question determines the replayed model: any two of it replay the same at every delta |
| CapacityPlan.ReportTurnsOnce | worker_health/pool_classifier_web/capacity_scenarios.py:214-221 | along the shown scenarios the verdict turns at most once, and an exact threshold is where |
| CapacityPlan.ReportUnique | worker_health/pool_classifier_web/capacity_scenarios.py:214-256 | two reports that answer the same question are equal in every field |
| CapacityPlan.WindowedModel | worker_health/pool_classifier_web/storage.py:931-934 | the windowed transitions give the same model iff no headcount change takes effect at the range's end |
| CapacityPlan.WindowedReport | worker_health/pool_classifier_web/storage.py:931-934 | and then the same report |
| CapacityPlan.WindowedUnlessAtEnd | worker_health/pool_classifier_web/storage.py:1022-1029 | if no transition takes effect exactly at the end, the windowed model and report are those of the full history |
| CapacityPlan.WindowMissesItsEnd | worker_health/pool_classifier_web/storage.py:1022-1029 | a worker that becomes available exactly at the end is missed there |
| CapacityPlan.WindowChangesVerdict | worker_health/pool_classifier_web/storage.py:931-934 | one job waiting at the end passes by the full history and fails by the windowed transitions |
| WorkerTime.CompressedUnique | worker_health/pool_classifier_web/capacity_scenarios.py:86-93 | a step function has only one compressed form |
| WorkerTime.AvailabilityByTime | worker_health/pool_classifier_web/capacity_scenarios.py:69-93 | the compressed steps strictly advance, adjacent ones differ, and at every instant of the range they give the headcount of available workers |
| WorkerTime.CapacityAt | worker_health/pool_classifier_web/capacity_scenarios.py:86-90 | replaying the records up to a boundary counts the workers available there |
| WorkerTime.AvailabilityIntervalsByWorker | worker_health/pool_classifier_web/utilization.py:85-116 | one entry per worker; an instant is in it iff it is in the range and the last observed event effective by it says available |
| WorkerTime.WorkerIntervals | worker_health/pool_classifier_web/utilization.py:95-115 | the same for one worker, merged and separated, whatever the order of effective times |
| Availability.ResolveAt | worker_health/pool_classifier_web/utilization.py:109-112 | replaying events in observation order leaves the value of the governing event |
| Utilization.TwoCapacityModelsAgree | worker_health/pool_classifier_web/capacity_scenarios.py:69-93 | at every instant of the range the compressed steps count the workers whose interval holds it, and they integrate to the summed lengths of the workers' intervals |
| Availability.ReductionPreservesAvailability | worker_health/pool_classifier_web/storage.py:1007-1033 | the baseline row and the in-window rows give every worker the same availability as the full history, at every instant of the window and so of every later-starting one |
| Availability.ReductionPreservesHeadcount | worker_health/pool_classifier_web/storage.py:1007-1033 | and the same headcount |
| Availability.OneBaseline | worker_health/pool_classifier_web/storage.py:1015-1025 | the windowed rows hold at most one transition per worker from before the window |
| Intervals.Merge | worker_health/pool_classifier_web/utilization.py:14-23 | separated, non-empty, ordered intervals covering exactly the same instants |
| Intervals.Intersection | worker_health/pool_classifier_web/utilization.py:26-45 | for any inputs, separated intervals covering an instant iff both inputs do |
| Intervals.SeparatedUnique | worker_health/pool_classifier_web/utilization.py:14-23 | a set of instants has only one separated form |
| Durations.ClipSeconds | worker_health/pool_classifier_web/utilization.py:48-59 | the clipped length counts each instant of the range once per interval it is in |
| Durations.MultiplicityIsSize | worker_health/pool_classifier_web/utilization.py:48-59 | an instant is counted once for each interval that starts at or before it and ends after it |
| Durations.IsComplete | worker_health/pool_classifier_web/utilization.py:62-72 | complete iff the range is not empty and every instant of it is covered |
| Durations.CompleteIsFullLength | worker_health/pool_classifier_web/utilization.py:62-72 | on separated intervals complete iff the clipped length is the full length |
| Durations.CoveredIsCount | worker_health/pool_classifier_web/utilization.py:119-134 | the covered length counts each covered instant once per interval it is in |
| Utilization.CalculateUtilization | worker_health/pool_classifier_web/utilization.py:137-230 | errors exactly on a bad range or size; otherwise buckets tile the range and each measures covered, busy and available time, completeness and status |
| Utilization.MakeBucket | worker_health/pool_classifier_web/utilization.py:182-217 | one bucket measures what its fields are named for |
| Utilization.TaskIntervals | worker_health/pool_classifier_web/utilization.py:75-82 | dropping runs that take no time changes no instant |
| Utilization.CompleteIffFullyCovered | worker_health/pool_classifier_web/utilization.py:182-188 | a bucket is complete iff its coverage is its whole length |
| Utilization.BucketsConserve | worker_health/pool_classifier_web/utilization.py:176-219 | for every bucket size covered, busy and available time summed over buckets are the whole-range amounts |
| Utilization.AvailableAtMostWorkers | worker_health/pool_classifier_web/utilization.py:199-202 | available time is at most the number of workers times the covered time |
| UtilizationSummary.CalculateSummary | worker_health/pool_classifier_web/utilization.py:233-271 | data reach exactly to the newest shared observation; every valid window ends there, has coverage and is not incomplete; a bad one is an error alone |
| UtilizationSummary.ReductionPreservesBuckets | worker_health/pool_classifier_web/storage.py:997-1005 | overlapping runs and windowed transitions describe every bucket inside the window as the full records do |
| UtilizationSummary.ReducedSummaryIsUnchanged | worker_health/pool_classifier_web/storage.py:976-1005 | the whole summary of the records reduced to the longest window, ending at the newest shared observation, equals the summary of the full history |
| UtilizationSummary.GetUtilizationSummary | worker_health/pool_classifier_web/storage.py:976-1005 | reading only the longest window gives the summary of the full history; asking for no window is an error iff something is observed |
| UtilizationSummary.SummaryUnique | worker_health/pool_classifier_web/utilization.py:247-271 | the records determine the summary |
| Coverage.CoverageTable.RecordCollectionCoverage | worker_health/pool_classifier_web/storage.py:795-846 | a bad gap bound is an error and changes nothing, as does an older observation; otherwise the rows take one step |
| Coverage.IntervalsAreMaximalRuns | worker_health/pool_classifier_web/storage.py:812-846 | after any observations the intervals are exactly the maximal runs of accepted successes joined within the bound given, in order |
| Coverage.AcceptedInTime | worker_health/pool_classifier_web/storage.py:805-814 | an observation is accepted iff none before it is of a later time |
| Coverage.IntervalsInOrder | worker_health/pool_classifier_web/storage.py:848-864 | each interval ends at or before the next starts |
| Coverage.NoFailureInside | worker_health/pool_classifier_web/storage.py:815-846 | no interval has an accepted failure strictly inside |
| Coverage.CoverageSummary | worker_health/pool_classifier_web/storage.py:29-69 | errors exactly on half a range or an empty one; covered is the clipped length; complete iff one interval alone fills the range |
| Coverage.NeverOverFull | worker_health/pool_classifier_web/storage.py:53-64 | of recorded intervals the covered time never exceeds the range, and is all of it iff every instant is covered |
| Coverage.CompleteIffFullAndUnbroken | worker_health/pool_classifier_web/storage.py:65-68 | complete iff fully covered and no interval ends strictly inside the range |
| Coverage.FullButNotComplete | worker_health/pool_classifier_web/storage.py:65-68 | a recorded log whose range is fully covered and not complete |
| TaskRuns.Storage.RecordObservedTaskRun | worker_health/pool_classifier_web/storage.py:450-462 | inserts a fresh observed row, marks an unresolved one as checked, leaves a settled one and every other row alone |
| TaskRuns.Storage.RecordTaskRunCheck | worker_health/pool_classifier_web/storage.py:464-472 | marks an unresolved row as checked and says whether; a settled row and every other row stay |
| TaskRuns.Storage.ExpireTaskRun | worker_health/pool_classifier_web/storage.py:533-541 | expires an unresolved row only and says whether; its first observation and every other row stay |
| TaskRuns.Storage.RecordTaskResult | worker_health/pool_classifier_web/storage.py:397-448 | a settled row keeps its verdict, any other gets the one given; each of the Queue's four fields is the one known, or else the end's own; the first observation and every other row stay |
| TaskRuns.Storage.ListUnresolvedTaskRuns | worker_health/pool_classifier_web/storage.py:474-483 | the first unresolved rows, by first observation, task and run, each once, all of them if they fit the limit |
| TaskRuns.Storage.GetTerminalTaskRuns | worker_health/pool_classifier_web/storage.py:337-353 | exactly the references whose rows are completed, failed, exception or expired |
| TaskRuns.Storage.IncrementSuccess | worker_health/pool_classifier_web/storage.py:551-560 | one more success and no consecutive failure, for that worker only |
| TaskRuns.Storage.IncrementFailure | worker_health/pool_classifier_web/storage.py:562-572 | one more failure and one more consecutive failure, for that worker only |
| TaskRuns.PersistCounts | worker_health/pool_classifier.py:1183-1192 | writing an unresolved row's end keeps the counts exact and every earlier verdict |
| TaskRuns.PersistTwiceMiscounts | worker_health/pool_classifier.py:1183-1192 | writing the end of a settled row would always break the counts, so the protocol must exclude it |
| Continuity.WindowContinuity | worker_health/pool_classifier.py:225-240 | a gap iff there was a stored non-empty window that shares no run with the current one |
| Continuity.ScanJudges | worker_health/pool_classifier.py:826-848 | for any list of windows, also several of one worker, the last one is stored and the last non-empty one is judged against what was stored just before it |
| Continuity.VerdictIsLastGap | worker_health/pool_classifier.py:826-873 | a worker's verdict is a failure exactly when that last judgement is a gap and the worker is not excused |
| Continuity.WakesOnlyFirst | worker_health/pool_classifier.py:833-838 | only the first window of a pass can look like a dormant worker waking up |
| CollectionSteps.StepIsGood | worker_health/pool_classifier.py:933-986 | every transition keeps the counts exact, memory referring to durable unresolved rows, each run once, and every settled verdict |
| CollectionSteps.AlwaysCountedOnce | worker_health/pool_classifier.py:1171-1213 | at every commit of every run, with any Queue answers, interrupts, crashes and restarts, each worker's successes are its completed rows and failures its failed and exception rows |
| CollectionSteps.SettledForGood | worker_health/pool_classifier_web/storage.py:411-448 | over every run no row disappears, no first observation moves and no settled verdict changes |
| CollectionSteps.DurableBeforeAsking | worker_health/pool_classifier.py:887-898 | whenever the Queue is asked, every reference names a durable, unresolved row |
| Collector.Collector.ObserveWindow | worker_health/pool_classifier.py:849-858 | every listed run not settled and not seen gets a row that names the first worker listing it and a reference, and nothing else changes |
| Collector.Collector.MergeBacklog | worker_health/pool_classifier.py:872-885 | the references grow by exactly the oldest unresolved rows, up to the batch size, each once |
| Collector.Collector.PrepareObservedTaskRunBatch | worker_health/pool_classifier.py:795-898 | one commit; windows, verdicts, rows and references are as the protocol's prepare transition says; no listed run is missed, a new row names the first worker listing it, the oldest unresolved rows are referenced, and no row without a reference is touched |
| Collector.Collector.ApplyPreparedTaskStatuses | worker_health/pool_classifier.py:933-986 | one commit; exactly the referenced unresolved runs of dropped tasks expire; returned are exactly the completed, failed and exceptional ends the Queue's answers give for a run and its worker, each run once, and those remembered; complete iff every reference was dropped or named with its worker |
| Collector.Collector.ProcessResults | worker_health/pool_classifier.py:1171-1213 | one commit per written task, in order, up to the interrupt; each run written was unresolved and now has the state, the reason and the times the Queue gave, and a category if it failed; the counts returned are the failures written, by category |
| Collector.Collector.Reopen | worker_health/pool_classifier.py:933-986 | a process that opens a store starts idle from the durable database, whatever the one before had left undone, and continues its history |
| Collector.Collector.ClassifyCycle | worker_health/pool_classifier.py:1217-1378 | the commits of a pass are, in order: the prepared rows, the applied answers, the coverage if it is decided, and one per ended run written up to the interrupt; every commit has exact counts and loses nothing later; every end reported for a reference is settled as reported unless interrupted first; coverage records a success iff the pass is sound, and nothing iff it is pending |
| Lifetimes.DyingPass | worker_health/pool_classifier.py:895-986 | wherever a pass dies, what is durable is a state of the protocol, with the windows and coverage of what it had committed |
| Lifetimes.Live | worker_health/pool_classifier.py:1409-1440 | after a completed pass, or a dead one and a restart, also in another mode, the collector is idle on the durable database |
| Lifetimes.Serve | worker_health/pool_classifier.py:1409-1440 | over a store's whole life, with deaths and restarts, every commit counts each settled run once and loses nothing settled, and windows and coverage are those `CoverageSafety` reasons about |
| CoverageSafety.GapVerdict | worker_health/pool_classifier.py:826-873 | a pass that meets a gap ends in a failing verdict exactly when the worker's last non-empty window met it, or shares no run with the non-empty one directly before it, and the worker is not excused |
| CoverageSafety.ExcusedByAge | worker_health/pool_classifier.py:243-263 | for a gap, excused means a listed pool, an earlier window at least a day old with at least 20 runs, a single new run, and fewer than five workers that end in a gap |
| CoverageSafety.DecisionMeans | worker_health/pool_classifier.py:1318-1355 | a pass decides for a success iff nothing failed, all workers were scanned, some run was seen and no worker ends in an unexcused gap; for nothing iff nothing was seen, or a fetch failed and nothing else is wrong |
| CoverageSafety.PassLeaves | worker_health/pool_classifier.py:1348-1355 | a completed pass leaves a success at its time iff it is sound and the coverage as it was iff it is pending; one that did not scan every worker changes no interval |
| CoverageSafety.GapIsFailure | worker_health/pool_classifier.py:1318-1355 | a pass that ends on an unexcused gap of some worker decides on a failure, whatever else failed |
| CoverageSafety.FailureNeverCovered | worker_health/pool_classifier.py:1348-1355 | the observation time of a pass that recorded a failure is in no coverage interval, then or ever after |
| CoverageSafety.WindowStays | worker_health/pool_classifier.py:1272-1282 | a failed fetch leaves the stored window for the next comparison, whatever other windows passes fetch |
| CoverageSafety.GapNeverCovered | worker_health/pool_classifier.py:1348-1355 | over runs with an increasing clock, no task-run coverage interval ever contains both sides of a gap that a completed pass ends on unexcused |
| CoverageSafety.GapCanBeCovered | worker_health/pool_classifier.py:1318-1355 | a gap just met can come to be covered exactly when its pass recorded no failure and the recorder was in an interval open since the earlier window |
| CoverageSafety.ListedTwice | worker_health/pool_classifier.py:386-401 | three completed passes whose last lists the worker twice: one interval covers both sides of the gap |
| CoverageSafety.LostVerdict | worker_health/pool_classifier.py:895-898 | if that pass dies before its verdict, some continuation covers the gap iff the recorder's last success is in an interval open since the earlier window |
| CoverageSafety.LostVerdictHappens | worker_health/pool_classifier.py:895-898 | two completed passes and one that dies after meeting a gap, which a next pass then covers |
| AvailabilityRecorder.Recorder.EnsureMode | worker_health/pool_classifier_web/storage.py:771-793 | a cutover resets coverage and both tables together, and nothing else does |
| AvailabilityRecorder.Recorder.RecordWorkerAvailability | worker_health/pool_classifier.py:1064-1169 | every known or sighted worker gets the later contact and the sighted quarantine; in a listed pool it is available iff sighted and not quarantined, otherwise iff its contact is recent enough and it is not quarantined; a transition is added iff it is new or its status changed, in worker order and numbered on, with the reason and from the instant the change calls for; the tables stay in agreement; with a forward clock and no contact in the future, the utilization resolver now reads every worker's state |
| AvailabilityRecorder.RecordKeepsAgreement | worker_health/pool_classifier.py:1108-1166 | each state row matches the newest transition, a transition never repeats the status before it, last contact never decreases |
| AvailabilityRecorder.JudgeObserves | worker_health/pool_classifier.py:1084-1145 | one observation of one worker: contact, quarantine, availability, and the reason and effective time of a change |
| AvailabilityRecorder.EffectiveWhenContactTurns | worker_health/pool_classifier.py:1126-1135 | a timeout takes effect at the first instant the last contact is stale, a return at its contact |
| AvailabilityRecorder.AlwaysAgrees | worker_health/pool_classifier.py:1142-1166 | in every reachable state, over any sightings and mode changes, the two tables agree |
| AvailabilityRecorder.AlwaysReadsState | worker_health/pool_classifier_web/utilization.py:95-114 | with a forward clock and no contact in the future, the utilization resolver at the observation time returns the state row's availability |
| Backfill.ListMissingSchedule | worker_health/pool_classifier_web/storage.py:355-371 | every page is a slice of one order of the eligible runs |
| Backfill.SelectBatch | worker_health/pool_classifier.py:560-576 | across pages the batch is exactly the first runs that are not skipped |
| Backfill.PendingMeans | worker_health/pool_classifier_web/storage.py:355-371 | pending is a run with an id, a start not before the bound and no schedule, neither skipped itself nor by its task |
| Backfill.BatchIsFirst | worker_health/pool_classifier.py:560-576 | a batch takes pending runs only, the last ended first, then by task and run, and leaves one only if it is full |
| Backfill.BackfillBatch | worker_health/pool_classifier.py:541-630 | errors exactly on a bad size or a held lock; otherwise selected runs are enriched with schedule and creation reason, marked unmatched or their task marked expired according to the reply, and nothing else changes |
| Backfill.EnrichedMeans | worker_health/pool_classifier.py:602-621 | exactly the selected runs that the reply schedules change, and get its schedule and creation reason |
| Backfill.SkipsMeans | worker_health/pool_classifier.py:602-621 | skipped from now on are exactly the tasks the reply drops and the runs of answered tasks it does not schedule |
| Backfill.BatchProgress | worker_health/pool_classifier.py:602-621 | nothing becomes pending, and every selected run that is answered stops being pending |
| Backfill.PendingCountFalls | worker_health/pool_classifier.py:602-621 | the number pending strictly falls with every batch that selects something and gets every reply |
| Backfill.ReasonLost | worker_health/pool_classifier_web/storage.py:387-396 | a creation reason is lost exactly when the run is selected and the reply that schedules it gives another reason or none |
| Backfill.ReasonErased | worker_health/pool_classifier_web/storage.py:387-396 | one run for which it is |
| Backfill.BackfillPool | worker_health/pool_classifier_web/scripts/backfill_start_lag_all_pools.py:82-109 | the drain ends, and finishes with nothing pending if nothing stops it and every run pending gets its replies; it ends early only for a stop, a held lock, or a missing reply for a pending run; it changes no row except to enrich an eligible one, and all it writes or skips is what the Queue said |
| Backfill.NothingLost | worker_health/pool_classifier_web/scripts/backfill_start_lag_all_pools.py:82-104 | when nothing is pending any more, every run that was is enriched as the Queue said, dropped with its task, or reported without a schedule |

## Left out

- Job sources and saved logs of ended runs: written beside the results, decided by nothing above.
- Collector.Collector.ClassifyCycle: models the pass from the fetched windows on; listing workers and recording availability is in `AvailabilityRecorder`.
- Worker groups, quarantine metadata, the last-active, last-success and last-failure columns, and the coverage event log: stored and displayed, decided by nothing above.
- The grouping of references by task and of ended runs by worker: batching only; one answer per task is kept.
- The state file of the drain, its statistics other than selected runs and transient failures, and its other limits: kept or reported only.
- Busy-turnaround samples and the sensitivity variants: they choose a turnaround and rerun the scenario.
- A pass that an exception ends while its process goes on: if the exception is not the database's, what the pass had not committed stays in the open transaction and becomes durable with the next commit; every aborted pass here loses it.
- Threads, timeouts, rate limits, retries, log fetching and pattern matching: replaced by arbitrary results.
- SQL text, migrations, the Postgres backend and locks: tables are maps and sequences, commits are atomic, and passes exclude each other.
- Web routes, snapshots, reports, reclassification and the queue-lag view: presentation, or plain filters and counts.
- Calendar parsing and floating-point rounding: integers throughout.
