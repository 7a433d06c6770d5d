# Verified model of the device metrics exporter

A Dafny 4.11 model of the parts of the AMD device metrics exporter that hold algorithms or
protocols, with proofs of what they guarantee. `dafny verify dfyconfig.toml` checks the whole
project.

| file | models | kind |
|---|---|---|
| `CounterPacking.dfy` | the packer that fits hardware counters into sampling profiles | nested loops |
| `PackingTheorems.dfy` | what the packer guarantees | lemmas |
| `CounterSampling.dfy` | the cache of profile sets and the aggregation of sampled records | class, loops |
| `StatusMigration.dfy` | the device ID maps, the migration of status keys, the start-up sweep | loops |
| `StatusDb.dfy` | the test status file and the operations on it | class, loops |
| `AutoTestRunner.dfy` | the automatic test trigger with crashes and restarts | state machine |
| `TestVerdict.dfy` | the overall result of a test run, with in-place filling | array, loops |
| `ReadCache.dfy` | the timed read cache with double-checked locking | state machine |
| `LatestCper.dfy` | the latest CPER record per GPU | nested loops |
| `HealthVerdict.dfy` | the health verdict of each GPU | class, loops |
| `MonitorLoop.dfy` | the health poll loop and its exit | loop |
| `ProfilerBreaker.dfy` | the failure breaker of the profiler client | class, state machine |
| `EventService.dfy` | the event dispatcher and the package-level singleton | state machines |
| `WorkerPool.dfy` | the parallel GPU query pool | state machine |
| `RangeParser.dfy` | the parser of index lists such as `0-3,7` | nested loops |
| `Wrappers.dfy` | the optional value | datatype |

## How to read the model

* The profiler library, the GPU agent, the Kubernetes API, clocks, timestamps and map iteration
  order are arbitrary inputs. The profiler library is an arbitrary deterministic function from a
  counter list to success with a handle, "exceeds the hardware limit" or another error.
* Counter values are reals, so rounding of doubles is not modelled. Sizes and counts are
  unbounded, except where the wrap-around is written out: the record counts of the packer and
  the loop counter of the index parser.
* Concurrent code is a state machine whose steps are the operations on shared state. A theorem
  about "every run" quantifies over all finite sequences of such steps.
* The status database lock of the source covers a single load or save. The model takes each
  load-modify-save as one step and takes saves to succeed.
* An event service may be used after it was stopped by an emitter that read the singleton
  earlier, so every service ever created can receive events in the model.

## Where the code does less than one would expect

Each of these is a lemma with a concrete witness or an exact condition.

* A configuration request that succeeds with handle zero loses the counters of that profile
  (`ProfilesConserveIff`, `ZeroHandleDropsCounter`).
* The worker pool can reach a state from which no continuation returns, cancellation by the
  caller included, exactly when there are more GPUs than 16 plus the number of workers
  (`CanGetStuckIff`). Otherwise every schedule finishes within a fixed number of steps
  (`EveryScheduleEnds`).
* A range that ends at the largest 64-bit integer makes the index parser loop for ever
  (`RangeLoopEndsIff`, `RoundTrip`).
* A restart reruns exactly the interrupted tests if and only if no two database keys stand for
  the same device while only one of them is marked running (`RerunsInterruptedIff`).
* A device can be tested again although no poll reported it healthy after the end of its first
  test. Every retest follows such a poll if and only if, when the test ends, no cleanup that
  lists the device is pending from an earlier poll (`HealthyPollIff`,
  `HealthyPollMayPrecedeEnd`).
* With k profiler commands in flight at most, each of three guarantees (one event per
  transition, no command while disabled, only a reset re-enables) holds in every run if and only
  if k is at most one (`GuaranteedIff`). The surplus events are exactly those of commands that
  end while the profiler is disabled already (`EventsAccountedFor`).
* A GPU can get the health of another one. Whatever the replies, every reported GPU gets exactly
  its own verdict if and only if the reported indices and UUIDs are distinct (`OwnVerdictIff`),
  and its own ECC error shows if and only if the indices are (`EccErrorsShowIff`). `Verdict`
  says what happens otherwise.

## Model

| member | source | states |
|---|---|---|
| CounterPacking.CounterSize | rocprofilerclient/rocpclient.cpp:339-353 | the record count of a counter is the product of its dimension sizes, wrapped to 64 bits |
| CounterPacking.ProductCounts | rocprofilerclient/rocpclient.cpp:339-353 | that product counts the combinations of dimension instances: they are numbered without gap or repetition up to it |
| CounterPacking.TryAdd | rocprofilerclient/rocpclient.cpp:485-524 | a counter joins the current profile exactly when the profile stays within ten names and the library accepts the extended list; configuration and size are those of that list |
| CounterPacking.FillProfile | rocprofilerclient/rocpclient.cpp:471-525 | one pass yields the greedily filled profile and the rejected supported counters in order, strictly fewer when anything fitted |
| CounterPacking.CreateProfiles | rocprofilerclient/rocpclient.cpp:458-558 | for every request and every library the kept profiles are the bins of online First-Fit over the supported counters; the passes terminate |
| CounterPacking.FirstAccepting | rocprofilerclient/rocpclient.cpp:477-525 | the reference algorithm places a counter in the first accepting bin: all earlier bins reject it |
| CounterPacking.FirstFitPeelsFirstBin | rocprofilerclient/rocpclient.cpp:470-536 | First-Fit treats its first bin as one pass and the rest as First-Fit on what that pass rejects |
| CounterPacking.MultiPassIsFirstFit | rocprofilerclient/rocpclient.cpp:470-544 | the multi-pass packing, leftovers included, equals online First-Fit |
| PackingTheorems.PackingConserves | rocprofilerclient/rocpclient.cpp:470-544 | bins plus leftovers hold every supported name of the request as often as the request does, and nothing else |
| PackingTheorems.ProfilesAreConfigured | rocprofilerclient/rocpclient.cpp:485-529 | every kept profile has one to ten supported names, the non-zero handle of a successful request for exactly their IDs in order, and as size the sum of their dimension products, wrapped to 64 bits |
| PackingTheorems.LeftoversFitNowhere | rocprofilerclient/rocpclient.cpp:538-543 | a counter is left over only if a profile of its own is refused |
| PackingTheorems.ProfilesConserveIff | rocprofilerclient/rocpclient.cpp:527-536 | kept profiles plus leftovers account for every supported counter if and only if no bin got handle zero |
| PackingTheorems.ZeroHandleDropsCounter | rocprofilerclient/rocpclient.cpp:528-536 | witness of a counter that is neither in a profile nor left over |
| PackingTheorems.PackingIsMaximal | rocprofilerclient/rocpclient.cpp:477-536 | if rejection is monotone on the lists the packer may ask for, no counter of a later profile and no leftover fits an earlier profile |
| PackingTheorems.ProfileCountIsCeil | rocprofilerclient/rocpclient.cpp:503-507 | if the library accepts every list the packer may ask for, exactly ceil(n/10) profiles are kept and nothing is left over |
| PackingTheorems.FewestProfiles | rocprofilerclient/rocpclient.cpp:469-544 | for such a library the kept profiles hold every supported counter and no distribution over bins of at most ten has fewer bins |
| RequestOrder.SameKeyIff | rocprofilerclient/rocpclient.cpp:564-569 | two requests have the same cache key exactly when they are permutations of each other |
| RequestOrder.LeqIsLexicographic | rocprofilerclient/rocpclient.cpp:564-566 | the order of the sort: a prefix, or smaller at the first difference |
| CounterSampling.CounterSampler.DecodeRecordName | rocprofilerclient/rocpclient.cpp:151-180 | the name is the one the library gives, memo or not; unknown counters are all named UNKNOWN_COUNTER |
| CounterSampling.CounterSampler.Accumulate | rocprofilerclient/rocpclient.cpp:624-628 | the records of one profile are added to the per-name sums of the earlier ones |
| CounterSampling.CounterSampler.SampleCountersWithPacking | rocprofilerclient/rocpclient.cpp:560-631 | the cache stays a table of fresh packings, a hit changes nothing, every profile is sampled under its own configuration, and the report holds exactly the names in the records of some profile, each with the sum of its per-profile sums, in total the sum of all records |
| CounterSampling.AggregateReports | rocprofilerclient/rocpclient.cpp:583-629 | adding all records to one map gives that report |
| CounterSampling.CacheAfterRequests | rocprofilerclient/rocpclient.cpp:568-580 | after any sequence of requests a request hits exactly when a permutation of it was seen, and the entry is the fresh packing of the sorted request |
| CounterSampling.GrandTotalConserved | rocprofilerclient/rocpclient.cpp:624-628 | the reported values add up to the sum of all record values |
| StatusMigration.BuildIdMaps | pkg/testrunner/testrunner.go:568-584 | both ID maps are built from the listing, and every index reached from a KFD ID is a known index |
| StatusMigration.IndexMapMeans | pkg/testrunner/testrunner.go:568-584 | the index map knows exactly the listed indices, each with the KFD ID of its last entry |
| StatusMigration.KfdMapMeans | pkg/testrunner/testrunner.go:568-584 | the KFD map knows exactly the listed KFD IDs, each with the index of its last entry |
| StatusMigration.TransformStatus | pkg/testrunner/utils.go:129-156 | the migrated statuses are those of some visiting order of the keys, a later key overwriting an earlier one; every known index and the index of every known KFD ID on record is kept |
| StatusMigration.MigrateSound | pkg/testrunner/utils.go:137-151 | every migrated entry is the status of a key that resolves to it and every resolving key is represented |
| StatusMigration.MigratedMeans | pkg/testrunner/utils.go:137-151 | on the listing: an index has a migrated entry exactly when some key is that index or the KFD ID last listed with it, and the entry is the status of such a key |
| StatusMigration.KfdKeyIsMigrated | pkg/testrunner/utils.go:144-147 | an entry under a listed KFD ID moves to the index of that device, and is rerun there if it was running |
| StatusMigration.UnknownKeyDisappears | pkg/testrunner/utils.go:149-151 | a key that is neither a listed index nor a listed KFD ID disappears |
| StatusMigration.SweepAndCollect | pkg/testrunner/testrunner.go:731-764 | exactly the entries of unknown devices are removed and exactly the running ones are collected, once each |
| StatusMigration.MigrationIdempotent | pkg/testrunner/utils.go:135-153 | migrating again under the same maps changes nothing, and the sweep then removes nothing |
| StatusMigration.RerunsInterruptedIff | pkg/testrunner/utils.go:137-151 | in every visiting order the rerun set is exactly the running devices that still resolve, if and only if no running and non-running key resolve to the same index |
| StatusDb.StatusFile.Load | pkg/testrunner/utils.go:113-126 | an empty status map reads back as absent |
| StatusDb.StatusFile.RemoveIdsWithExistingTest | pkg/testrunner/utils.go:353-381 | the valid devices are those without an entry, in order; a rerun keeps all |
| StatusDb.SelectConcat | pkg/testrunner/utils.go:353-381 | the selection works device by device, keeping order and repetitions |
| StatusDb.StatusFile.StartTest | pkg/testrunner/testrunner.go:887-940 | the tested devices are marked running and nothing else changes; no test starts when all are on record |
| StatusDb.StatusFile.CleanupHealthy | pkg/testrunner/testrunner.go:858-883 | healthy devices lose their entry unless it is running; all other entries stay |
| StatusDb.StatusFile.UpdateAfterTestRun | pkg/testrunner/testrunner.go:1003-1026 | the update ends the process exactly when it marks devices in an absent map; otherwise it sets or removes exactly the given devices by trigger |
| AutoTestRunner.UnderTestIsRunning | pkg/testrunner/testrunner.go:887-1001 | in every run a device in flight or pending rerun is marked running |
| AutoTestRunner.OneTestPerDevice | pkg/testrunner/testrunner.go:889-902 | no device ever has two tests in flight |
| AutoTestRunner.CleanupSparesTests | pkg/testrunner/testrunner.go:858-883 | a cleanup never erases a device in flight or pending rerun |
| AutoTestRunner.FinishFindsStatus | pkg/testrunner/testrunner.go:1003-1022 | the final update of a test always finds a non-empty status map |
| AutoTestRunner.UnhealthyDeviceIsTried | pkg/testrunner/testrunner.go:796-803 | in every run a device a poll reports unhealthy stays with a goroutine until that finds an entry for it or tests it, unless the process stops |
| AutoTestRunner.FreshTestWasReported | pkg/testrunner/testrunner.go:887-902 | a fresh test covers only devices a poll reported unhealthy and that had no entry |
| AutoTestRunner.TestLastsUntilFinish | pkg/testrunner/testrunner.go:887-1001 | a test keeps its devices until it finishes, unless the process stops |
| AutoTestRunner.RetestNeedsRecovery | pkg/testrunner/testrunner.go:767-804 | between two fresh starts on a device the first test finished and then the cleanup of a poll that had reported it healthy ran |
| AutoTestRunner.RetestNeedsHealthyPoll | pkg/testrunner/testrunner.go:778-803 | if no cleanup listing the device was pending when its test ended, a poll after that end reported it healthy before the next fresh start |
| AutoTestRunner.HealthyPollIff | pkg/testrunner/testrunner.go:778-803 | for every reachable state with a test in flight: after its end every retest of the device follows a poll reporting it healthy, if and only if no cleanup listing the device is pending |
| AutoTestRunner.HealthyPollMayPrecedeEnd | pkg/testrunner/testrunner.go:778-803 | the pending case is reachable: a run in which no poll reports the device healthy between the end of its first test and its retest |
| AutoTestRunner.RestartReruns | pkg/testrunner/testrunner.go:728-764 | a restart reruns exactly the interrupted tests of known devices and its sweep removes nothing |
| AutoTestRunner.InterruptedTestIsRerun | pkg/testrunner/testrunner.go:986-998 | a device in flight or pending rerun at a crash or signal is rerun under the index it resolves to |
| AutoTestRunner.RerunUnderListedIndex | pkg/testrunner/testrunner.go:728-764 | on the listing of the new process: it is rerun under its own index or under the index last listed with it as KFD ID |
| AutoTestRunner.CollectedDeviceIsTested | pkg/testrunner/testrunner.go:758-763 | every collected device stays to be rerun until a step puts it under test again, unless the process stops |
| TestVerdict.ScanActions | pkg/testrunner/testrunner.go:1132-1146 | the flags after scanning a GPU's actions do not depend on the order; a failed action is always found |
| TestVerdict.GetOverallResult | pkg/testrunner/testrunner.go:1124-1191 | the verdict is the declarative one for every iteration order, and the iterations are filled exactly up to the first failing one |
| TestVerdict.VerdictMeans | pkg/testrunner/testrunner.go:1168-1190 | on the results themselves: failure or an empty iteration, then timeout, then queued, then skipped if nothing passed, else success |
| TestVerdict.FilledMeans | pkg/testrunner/testrunner.go:1155-1165 | exactly the empty iterations that did not time out, up to the first failing one, get a failure for every tested device |
| TestVerdict.SecondCallAgrees | pkg/testrunner/testrunner.go:1155-1165 | a second call on the filled iterations returns the same verdict |
| TestVerdict.VerdictOfPermutation | pkg/testrunner/testrunner.go:1130-1190 | reordering the iterations does not change the verdict |
| ReadCache.QueriesAreSpaced | pkg/amdgpu/gpuagent/gpuagent_gpu.go:362-397 | in every interleaving a query starts at least a cache period after every earlier successful one completed |
| ReadCache.ReturnsAreFresh | pkg/amdgpu/gpuagent/gpuagent_gpu.go:363-383 | a returned response came from a successful query that completed later than one cache period before the call began |
| ReadCache.LookAtCache | pkg/amdgpu/gpuagent/gpuagent_gpu.go:365-383 | each look returns the answer of the last completed query exactly when that succeeded less than fifteen seconds before the call began or, second look, before now |
| ReadCache.CalledAt | pkg/amdgpu/gpuagent/gpuagent_gpu.go:363-363 | the start time of a reader is the time of its last call |
| ReadCache.ReturnOrigin | pkg/amdgpu/gpuagent/gpuagent_gpu.go:365-396 | every result is the answer of the reader's own query or the last fetched response at a look; no response is returned only if the own query failed after the last call |
| ReadCache.NeverStuck | pkg/amdgpu/gpuagent/gpuagent_gpu.go:375-397 | as long as a call has not returned, some call can go on |
| ReadCache.OneQueryAtATime | pkg/amdgpu/gpuagent/gpuagent_gpu.go:375-389 | at most one query is under way and no reader passes the lock meanwhile |
| ReadCache.FailureLeavesNothing | pkg/amdgpu/gpuagent/gpuagent_gpu.go:389-396 | after a failed query every look at the cache misses until a query succeeds |
| LatestCper.LatestCperPerGpu | pkg/amdgpu/gpuagent/gpuagent_gpu.go:454-492 | exactly the GPUs with records get one: the earliest-seen of greatest timestamp, or the last-seen if none has a timestamp |
| LatestCper.LatestIsUnique | pkg/amdgpu/gpuagent/gpuagent_gpu.go:472-483 | the specification determines the record |
| LatestCper.InterleavingIrrelevant | pkg/amdgpu/gpuagent/gpuagent_gpu.go:461-485 | the result for one GPU does not depend on how other GPUs' records are interleaved |
| LatestCper.UntimedOnlyAsFallback | pkg/amdgpu/gpuagent/gpuagent_gpu.go:472-483 | a record without a timestamp is kept exactly when no record of the GPU has one |
| LatestCper.LatestHasGreatestTime | pkg/amdgpu/gpuagent/gpuagent_gpu.go:472-483 | no readable timestamp of the GPU is later than that of the kept record |
| LatestCper.RecordsAreEntries | pkg/amdgpu/gpuagent/gpuagent_gpu.go:461-471 | every record of every list of the GPU is considered, in order |
| HealthVerdict.ProcessEccErrorMetrics | pkg/amdgpu/gpuagent/gpuagent_health.go:108-171 | a GPU is unhealthy exactly when an effective, mock-overridden count exceeds its threshold |
| HealthVerdict.ApplyEvents | pkg/amdgpu/gpuagent/gpuagent_health.go:256-308 | exactly the known GPUs named by critical events become unhealthy |
| HealthVerdict.ApplyCpers | pkg/amdgpu/gpuagent/gpuagent_health.go:74-105 | exactly the known GPUs whose latest record is fatal and actionable become unhealthy, in any visiting order |
| HealthVerdict.GpuHealthClient.SetUnhealthyGpu | pkg/amdgpu/gpuagent/gpuagent_health.go:177-191 | every known GPU becomes unhealthy with a refreshed workload list; nothing else changes |
| HealthVerdict.GpuHealthClient.ProcessHealthValidation | pkg/amdgpu/gpuagent/gpuagent_health.go:231-324 | success replaces the health map by the computed one; every failure marks all known GPUs unhealthy and keeps their set; the outcome is fixed by the inputs |
| HealthVerdict.Verdict | pkg/amdgpu/gpuagent/gpuagent_health.go:286-312 | for every reply, repeated indices and UUIDs included: an entry is unhealthy if and only if the ECC counts of the last GPU of that index exceed a threshold or a GPU of that index, the last one of its UUID, has a critical event or an actionable fatal record |
| HealthVerdict.UnhealthyIff | pkg/amdgpu/gpuagent/gpuagent_health.go:286-312 | with distinct indices and UUIDs a GPU is unhealthy if and only if an ECC count, a critical event or its latest CPER record says so |
| HealthVerdict.VerdictOnReplies | pkg/amdgpu/gpuagent/gpuagent_health.go:231-324 | the same on the replies themselves: a count, positive mock values overriding, above its threshold; a critical event in a usable event reply; or a latest record that is fatal and within the maximum age in a usable CPER reply |
| HealthVerdict.LatestRecordDecides | pkg/amdgpu/gpuagent/gpuagent_health.go:53-72 | without another reason a timed latest record makes the GPU unhealthy if and only if it is fatal and the maximum age is zero or not passed; an untimed one if and only if it is fatal |
| HealthVerdict.ReportedState | pkg/amdgpu/gpuagent/gpuagent_health.go:128-145 | ID, UUID, device and workload of an entry are those of the last GPU of its index |
| HealthVerdict.OwnVerdictIff | pkg/amdgpu/gpuagent/gpuagent_health.go:286-312 | whatever the replies, every reported GPU gets exactly its own verdict if and only if indices and UUIDs are distinct |
| HealthVerdict.EccErrorsShowIff | pkg/amdgpu/gpuagent/gpuagent_health.go:128-145 | whatever the replies, every reported GPU's own ECC error shows if and only if the indices are distinct |
| HealthVerdict.ExactlyReportedGpus | pkg/amdgpu/gpuagent/gpuagent_health.go:193-201 | the health map after success covers exactly the reported GPUs |
| HealthVerdict.DuplicateIndexHidesError | pkg/amdgpu/gpuagent/gpuagent_health.go:128-145 | for every repeated index there are counts with which the ECC error of the earlier GPU is hidden |
| HealthVerdict.DuplicateUuidHidesEvent | pkg/amdgpu/gpuagent/gpuagent_health.go:286-291 | for every repeated UUID there is a critical event that spares the earlier GPU |
| MonitorLoop.StreakIsSuffix | pkg/amdgpu/gpuagent/gpuagent.go:343-402 | the failure count is the length of the current suffix of agent failures |
| MonitorLoop.PollTick | pkg/amdgpu/gpuagent/gpuagent.go:349-414 | one tick: counts exactly a failed reconnect, an unreachable agent and zero GPUs, resets otherwise, exits at the third with the reason of that failure |
| MonitorLoop.Monitor | pkg/amdgpu/gpuagent/gpuagent.go:323-417 | the exit happens at the first tick ending three agent failures in a row with the flag set, or meeting a disabled profiler with that flag set, and at no other; with the flag set the count never passes three |
| MonitorLoop.OtherErrorBreaksStreak | pkg/amdgpu/gpuagent/gpuagent.go:393-402 | a non-restartable error or a success ends the streak |
| ProfilerBreaker.ROCProfilerClient.IncFailureCount | pkg/amdgpu/rocprofiler/rocpclient.go:148-164 | the third failure sets the reason and emits one event; the others emit none |
| ProfilerBreaker.ROCProfilerClient.SetFatalFailureState | pkg/amdgpu/rocprofiler/rocpclient.go:181-195 | a crash disables the profiler and emits one event unless it had crashed already |
| ProfilerBreaker.ROCProfilerClient.GetMetrics | pkg/amdgpu/rocprofiler/rocpclient.go:197-269 | without concurrent callers the command runs exactly when enabled and fields are configured, and an event is emitted exactly when it disables the profiler |
| ProfilerBreaker.ROCProfilerClient.Conclude | pkg/amdgpu/rocprofiler/rocpclient.go:235-268 | the effect of each outcome at any time: failures count, a crash disables, a cancellation changes nothing, a success closes the breaker; the number of events emitted |
| ProfilerBreaker.DisabledIff | pkg/amdgpu/rocprofiler/rocpclient.go:148-195 | under any interleaving the profiler is disabled if and only if since the last success or reset three commands failed or one crashed |
| ProfilerBreaker.AnyInterleaving | pkg/amdgpu/rocprofiler/rocpclient.go:82-88 | under any interleaving disabled is equivalent to having a reason, the events since the last reset are one per kind of disabling, and each transition to disabled emits one or two events |
| ProfilerBreaker.SerializedFetches | pkg/amdgpu/rocprofiler/rocpclient.go:197-269 | with serialized fetches each transition emits exactly one event, no command runs while disabled, only an explicit reset re-enables |
| ProfilerBreaker.OverlapBreaksAll | pkg/amdgpu/rocprofiler/rocpclient.go:118-142 | two commands in flight suffice to break each of the three |
| ProfilerBreaker.GuaranteedIff | pkg/amdgpu/rocprofiler/rocpclient.go:197-269 | each of the three holds in every run with at most k commands in flight if and only if k is at most one |
| ProfilerBreaker.EventsAccountedFor | pkg/amdgpu/rocprofiler/rocpclient.go:148-195 | in every run the events beyond one per transition are those of commands that ended while the profiler was disabled already |
| EventDispatcher.DrainedAtExit | pkg/events/service.go:72-90 | at dispatcher exit everything queued at the stop signal was delivered once each in order |
| EventDispatcher.StopMakesProgress | pkg/events/service.go:73-97 | after the stop signal the dispatcher can always move until it exits |
| EventLifecycle.InvOfRun | pkg/events/events.go:36-59 | in every run accepted events are the delivered, the one in delivery and the queued ones in order, replies go out at most once, each service is closed at most once |
| EventLifecycle.ClosedAndExitedAtMostOnce | pkg/events/service.go:158-177 | each stop channel is closed and each exit function called at most once, and no queue exceeds 64 |
| EventLifecycle.ExitAfterFatalEvent | pkg/events/service.go:158-172 | the exit function is called only after the cleanup, and that only after the fatal event was delivered or its wait timed out |
| EventLifecycle.StopDelivers | pkg/events/events.go:50-59 | when Stop or a replacing Init returns, the old service has delivered what was queued before the stop signal, once each in order |
| EventLifecycle.RepliesNeverBlock | pkg/events/service.go:92-97 | a reply to a synchronous event never blocks, even after its caller timed out |
| EventLifecycle.DroppedMetFullQueue | pkg/events/service.go:129-137 | every dropped event was asynchronous and met a full queue |
| EventLifecycle.AsyncEventEnters | pkg/events/service.go:129-137 | an asynchronous event that meets fewer than 64 waiting events enters the queue for good, and one that meets a full queue is dropped |
| EventLifecycle.SyncEventIsKept | pkg/events/service.go:139-148 | a synchronous event enters the queue if there is room and is otherwise delivered by its emitter |
| EventLifecycle.EventsAreAccountedFor | pkg/events/service.go:92-148 | every event was queued, dropped, or is or was delivered directly, a dropped one nothing else; a reply was sent exactly for the delivered synchronous events, once |
| EventLifecycle.EmittedBeforeStopIsDelivered | pkg/events/service.go:72-90 | an event emitted before the stop signal into a queue with room has been delivered when Stop or a replacing Init returns |
| EventLifecycle.InitInstalls | pkg/events/events.go:36-59 | Init installs an open, empty service, at once or when the old one has drained; Stop leaves none |
| EventLifecycle.NothingDeliveredAfterExit | pkg/events/service.go:80-88 | an event queued after the drain is never delivered |
| EventLifecycle.StopCannotHang | pkg/events/service.go:174-177 | a waiting Stop or Init can return, or the dispatcher it waits for can take a step |
| EventLifecycle.StopIsBounded | pkg/events/service.go:73-97 | in every run the dispatcher steps after the stop signal are bounded by what was queued then and is queued later, exactly so until it exits |
| WorkerPool.InvOfRun | pkg/amdgpu/gpuagent/worker.go:51-102 | in every schedule the channel holds the untaken jobs in order, no job is held twice, slots are written once, and without cancellation every taken job is held or answered |
| WorkerPool.SlotsHoldOwnAnswers | pkg/amdgpu/gpuagent/worker.go:55-70 | each slot is written at most once with the response to its own request |
| WorkerPool.NoJobTakenTwice | pkg/amdgpu/gpuagent/worker.go:72-82 | no job is taken twice |
| WorkerPool.AllSlotsFilled | pkg/amdgpu/gpuagent/worker.go:99-102 | a pool that returns no error and was not cancelled has filled every slot |
| WorkerPool.CancelStopsQueries | pkg/amdgpu/gpuagent/worker.go:55-68 | after a failure or a cancellation by the caller no query starts |
| WorkerPool.TotalWorkers | pkg/amdgpu/gpuagent/worker.go:40-49 | the number of workers is the least of cores, GPUs and five |
| WorkerPool.SenderNeverBlocks | pkg/amdgpu/gpuagent/worker.go:84-98 | with at most sixteen jobs the sender never blocks |
| WorkerPool.NoOtherDeadlock | pkg/amdgpu/gpuagent/worker.go:72-102 | every reachable pool has finished, can move, or has its sender on a full channel without receivers |
| WorkerPool.EveryScheduleEnds | pkg/amdgpu/gpuagent/worker.go:51-102 | no schedule has more than four steps per GPU plus one per worker plus one; one that cannot go on has finished unless there are more than sixteen plus the number of workers jobs |
| WorkerPool.CanGetStuckIff | pkg/amdgpu/gpuagent/worker.go:62-98 | a state from which no continuation returns is reachable if and only if there are more than sixteen plus the number of workers jobs; so is the full channel without receivers |
| RangeParser.SplitJoin | pkg/exporter/parserutil/options.go:27-29 | splitting undoes joining when the separator occurs in no part |
| RangeParser.RangeLoopEndsIff | pkg/exporter/parserutil/options.go:52-55 | the counting loop ends if and only if the end is below the largest int |
| RangeParser.SpanHolds | pkg/exporter/parserutil/options.go:52-55 | a range stands for exactly the numbers from its start to its end, increasing |
| RangeParser.AtoiMeans | pkg/exporter/parserutil/options.go:34-47 | the number texts: digits with an optional sign within 64 bits |
| RangeParser.RangeStrToIntIndices | pkg/exporter/parserutil/options.go:25-59 | the loops compute the part-by-part meaning, partial indices on error included |
| RangeParser.ParseInRange | pkg/exporter/parserutil/options.go:29-47 | every parse of any string yields only non-negative ints, and a successful one at least one |
| RangeParser.RoundTrip | pkg/exporter/parserutil/options.go:25-59 | parsing a printed list gives the concatenated expansions in order exactly when no range ends at the largest int |
| RangeParser.FirstBadPartDecides | pkg/exporter/parserutil/options.go:28-58 | the first part that is no number and no range decides: an error with the indices of the parts before it, or no return; without one all indices are returned |
| RangeParser.AcceptedIff | pkg/exporter/parserutil/options.go:25-59 | the accepted strings are exactly the non-empty comma-joined lists of numbers and increasing ranges below the largest int |

## Left out

- gRPC, HTTP, Kubernetes, CRI, Slurm, shell commands, file watching, archives and cloud upload: foreign calls; their results are inputs of the model.
- The metric field tables and Prometheus registration: flat assignments without a hard property.
- NIC metrics (`pkg/amdnic`): field-by-field sums that would only add easy members.
- The manual and pre-start test triggers: one test at a time; only their database update is modelled (UpdateAfterTestRun).
- Overlapping load-modify-save sequences of the status database and failing saves: outside the step assumption stated above.
- An unreadable status file at start-up: the source exits the process there.
- A fatal call before Init: it exits directly without a service.
- The RBAC latch and the API call bound of `emitToK8s`: a one-way flag; a delivery is a single step here.
- The timed cache in front of the profiler (`cacheMetrics`): it only avoids running the command.
- The background CPER refresh: it stores or keeps the last response; the stored response is an input of the health validation.
- SetComputeNodeHealthState: it overwrites verdicts directly; its flag is an input of the validation.
- Aliasing of the health state records handed to readers: states are values here.
- CounterSampling.GrandTotalConserved: is over reals and does not model floating-point rounding.
