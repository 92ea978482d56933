# Verified model of the EduBotics fleet software

Dafny models of the parts of the repository whose correctness spans several functions or unbounded runs,
with proofs about them. `dafny verify dfyconfig.toml` checks everything.

| files | what they model |
|---|---|
| `engine_cache*.dfy`, `token_bucket.dfy`, `session_check.dfy` | the inference container: the leased LRU of engines under any interleaving of threads, the rate limiter, the single-flight session check |
| `worker_trace.dfy`, `worker_api.dfy`, `uploader.dfy`, `managed_run.dfy`, `step_names.dfy` | the managed training worker: API calls and the fence, the uploader thread, the run itself |
| `bounded_log.dfy`, `log_buffer.dfy` | the worker's head-and-tail log |
| `union_find.dfy`, `edge_records.dfy`, `components.dfy`, `decimate.dfy` | edge-connected components and vertex clustering of meshes |
| `sight_line.dfy` | the slab test, the corner boxes and the occlusion mask of the placement mat |
| `env_quoting.dfy`, `env_lines.dfy`, `env_upsert.dfy`, `env_regenerate.dfy`, `env_generate.dfy`, `env_reads.dfy`, `selection.dfy` | the managed `.env` file: quoting, reading, upsert, regeneration |
| `self_update.dfy` | the Pi agent's rename-swap update under power loss |
| `camera_preview.dfy` | the Pi agent's preview hand-off between threads |
| `jetson_trace.dfy`, `jetson_agent.dfy` | the Jetson agent's ownership loop |
| `package_lines.dfy`, `name_order.dfy`, `training_lock.dfy`, `lock_check.dfy` | the training lock's printer, parser and comparison |
| `common.dfy`, `text.dfy`, `text_lines.dfy` | shared datatypes and Python's string functions |

How it is modelled:

- Threads are state machines: each action is one critical section or one call between two, and a run is any
  interleaving of actions. The lock sections of the engine cache are also written as a class whose methods
  are proved equal to the functions the state machine uses.
- The outside world (API answers, the disk, clocks, other threads raising a flag) is arbitrary: a value the
  methods pick freely, or a parameter.
- The worker and the Jetson agent keep their history as a ghost list of events. `Allowed` says what a
  history permits next, the methods are proved to add only allowed events, the theorems are about all lists
  of allowed events, and the methods that are a whole thread (`Loop`, `Run`, `Serve`) promise them of the
  history they leave.
- Times, rates and coordinates are reals; strings are sequences of characters.
- A mesh triangle's vertices are identified by index or by exact coordinates, as the original does.

Where a promise of the repository does not hold of its code, the code was kept and the exact condition is
proved:

- The log keeps its prefix-and-suffix shape exactly when no line goes to the head after a drop
  (`BoundedLog.ShapeIff`); an over-long line breaks it (`LogBuffers.LongLineBreaksShape`).
- The slab test rounds components under 1e-12 to zero; a segment is told right on every box exactly when it
  has none (`SightLines.ExactIffNoneRounded`).
- A value with a line break is never read back from the `.env` file (`EnvUpsert.ReadsBackIff`,
  `EnvReads.AllPathsReadIff`).
- A self-update is safe to begin exactly while `pi_agent` is there (`SelfUpdate.BeginSafeIff`): after a
  failed rename back it is not, and the next apply could delete the only tree (`SelfUpdate.BegunWithoutLive`).
- The copy into `pi_agent.new` passes over a file that is there with the same size and time. After an
  incomplete clearing of that directory the update is right exactly when every file left is one of the
  release's and none of the same size and time differs (`SelfUpdate.LeftRightIff`); otherwise a mixed tree
  can go live (`SelfUpdate.MixedTreeGoesLive`). An incomplete clearing of `pi_agent.old` does no harm.
- When a preview's header write fails, which can happen (`CameraPreview.LeakHappens`), its entry stays
  registered for good; captures can still be opened exactly while that has happened to no preview
  (`CameraPreview.OpensAgainIff`). The other preview properties hold whether or not header writes succeed.
- A request begins once the fence is set exactly when the fence was set between the thread's look and the
  request (`WorkerTrace.LateIff`), which can happen (`WorkerTrace.LateHappens`) but only once per thread
  (`WorkerTrace.LateOnlyByRace`). The log's own PUT does not look at the fence at all and is not counted.
- A checkpoint goes from untouched straight to uploaded or skipped exactly when the API just said that it
  has it or refuses it, or a file is missing (`WorkerTrace.StraightIff`); both happen.
- The Jetson's proxy runs without a successfully claimed owner recorded exactly while it is coming up and
  between the clearing of the owner and its stop (`JetsonTrace.ProxyOwned`), which a release goes through
  (`JetsonAgents.JetsonAgent.DropOwner`).

## Model

| member | source | states |
|---|---|---|
| LruModel.EvictKeeps | robotis_ai_setup/modal_inference/server_core.py:240-248 | eviction ends with at most `max` entries or every entry in use; survivors keep engine and count, only unused entries go, and nothing goes below the limit |
| LruModel.OldestIdleUnique | robotis_ai_setup/modal_inference/server_core.py:240-248 | among unused entries the one with the oldest last lease is unique |
| LruModel.EvictsToUnique | robotis_ai_setup/modal_inference/server_core.py:240-248 | what a timestamped LRU evicts down to is determined |
| LruModel.EvictRefines | robotis_ai_setup/modal_inference/server_core.py:240-248 | the ordered dictionary's eviction loop removes exactly what a timestamped LRU removes: each time the unused key with the oldest last lease |
| LruModel.LeaseRefines | robotis_ai_setup/modal_inference/server_core.py:200-204 | `move_to_end` is giving the key the newest stamp |
| LruModel.InstallRefines | robotis_ai_setup/modal_inference/server_core.py:223-226 | installing an engine, leasing it and evicting refines the same on the timestamped LRU |
| LruModel.ReleaseRefines | robotis_ai_setup/modal_inference/server_core.py:231-236 | so does counting a use down and evicting |
| EngineCacheCode.Lease.Release | robotis_ai_setup/modal_inference/server_core.py:149-154 | releasing a lease counts its use down once, however often it is called |
| EngineCacheCode.EngineCache.LeaseLocked | robotis_ai_setup/modal_inference/server_core.py:200-204 | one more use, the key moved to the end, a lease on the slot's engine |
| EngineCacheCode.EngineCache.LeaseIfCached | robotis_ai_setup/modal_inference/server_core.py:206-210 | a lease exactly when the key is cached, else nothing changes |
| EngineCacheCode.EngineCache.InstallEngine | robotis_ai_setup/modal_inference/server_core.py:223-226 | the new engine is cached and leased before anything is evicted |
| EngineCacheCode.EngineCache.ReleaseKey | robotis_ai_setup/modal_inference/server_core.py:231-236 | the guarded decrement followed by an eviction |
| EngineCacheCode.EngineCache.NextVictim | robotis_ai_setup/modal_inference/server_core.py:243 | the first unused key in the dictionary's order |
| EngineCacheCode.EngineCache.EvictLocked | robotis_ai_setup/modal_inference/server_core.py:240-248 | the loop ends; at most `max_models` entries or all in use; the number evicted is returned |
| LruProtocol.StepInv | robotis_ai_setup/modal_inference/server_core.py:206-238 | every atomic step of any thread keeps the whole invariant: refs equal the leases not yet counted down, one holder per key lock, no cached key being loaded, warmed engines only |
| LruProtocol.RunInv | robotis_ai_setup/modal_inference/server_core.py:164-248 | every state of every interleaved run satisfies the invariant |
| LruProtocol.GuardNeverSkips | robotis_ai_setup/modal_inference/server_core.py:233-235 | when a release reaches the cache lock, its slot is there with a positive count: the guard never skips a decrement |
| LruProtocol.SingleLoad | robotis_ai_setup/modal_inference/server_core.py:217-224 | at most one load per key is in flight, and never of a key that is cached |
| LruProtocol.CachedEngineStays | robotis_ai_setup/modal_inference/server_core.py:218-226 | a cached engine is never overwritten, and leaves the cache only when no lease on it is outstanding |
| LruProtocol.LeaseIsLive | robotis_ai_setup/modal_inference/server_core.py:164-171 | every lease ever made is on an engine loaded for its key and warmed first; until released, that engine is the one in its slot |
| LruProtocol.SizeBound | robotis_ai_setup/modal_inference/server_core.py:164-171 | whenever the cache lock is free, the size is at most `max_models` or at most the number of outstanding leases |
| LruProtocol.CountedUntilCountDown | robotis_ai_setup/modal_inference/server_core.py:149-154 | one step counts a lease down exactly when it is that lease's release |
| LruProtocol.ReleasedOnce | robotis_ai_setup/modal_inference/server_core.py:149-154 | over a whole run each lease is counted down at most once, and exactly once when its use is no longer counted |
| LruProtocol.StepRefines | robotis_ai_setup/modal_inference/server_core.py:200-248 | every step of the protocol is a step, or none, of the timestamped LRU |
| LruProtocol.RunRefines | robotis_ai_setup/modal_inference/server_core.py:200-248 | every run of the protocol refines a run of the timestamped LRU |
| LruProtocol.NoDeadlock | robotis_ai_setup/modal_inference/server_core.py:212-238 | while any thread is inside a call, some thread inside a call can take a step |
| TokenBuckets.TokenBucket.Take | robotis_ai_setup/modal_inference/server_core.py:275-282 | a call refills by the time elapsed, never above `burst`, and takes one token when there is one |
| TokenBuckets.TokensInRange | robotis_ai_setup/modal_inference/server_core.py:275-282 | with a clock that does not go back, tokens stay within [0, burst] over any sequence of calls |
| TokenBuckets.BeforeIsLeast | robotis_ai_setup/modal_inference/server_core.py:275-282 | the bucket before a call holds the least allowance any window ending with that call leaves |
| TokenBuckets.TakenIff | robotis_ai_setup/modal_inference/server_core.py:266-282 | a call succeeds exactly when, for every earlier call, the window from it to this call still has room for one more |
| TokenBuckets.SpanBound | robotis_ai_setup/modal_inference/server_core.py:266-282 | successes from some call on are at most `burst` plus what was earned since |
| TokenBuckets.WindowBound | robotis_ai_setup/modal_inference/server_core.py:266-282 | in any window [a, b] of any sequence of calls, at most burst + rate * (b - a) calls succeed |
| TokenBuckets.Drive | robotis_ai_setup/modal_inference/server_core.py:268-282 | a bucket driven through any sequence of call times answers as the recurrence says |
| SessionChecks.Entry.CheckFailed | robotis_ai_setup/modal_inference/server_core.py:482-487 | a failed check counts one more, keeps the first failure of the run, and sets the next attempt two seconds ahead |
| SessionChecks.Entry.FinishCheck | robotis_ai_setup/modal_inference/server_core.py:489-506 | a check ends with a success, a failure, a verdict or a cancellation, each with its whole effect |
| SessionChecks.Entry.Gate | robotis_ai_setup/modal_inference/server_core.py:578-591 | a verdict, then the fail-closed rule, then at most one new check decide an observation |
| SessionChecks.CountersDescribeRun | robotis_ai_setup/modal_inference/server_core.py:482-506 | over any history, `fails` and `failing_since` are the length and the first time of the unbroken run of failures since the last success |
| SessionChecks.DeniedMeansVerdict | robotis_ai_setup/modal_inference/server_core.py:489-500 | an entry is denied exactly when some check answered with a verdict |
| SessionChecks.AdmittedIff | robotis_ai_setup/modal_inference/server_core.py:580-588 | an observation is served exactly when no verdict was recorded and the failing run, if any, is younger than 30 s |
| SessionChecks.SingleFlight | robotis_ai_setup/modal_inference/server_core.py:508-512 | checks started minus checks ended is one while a check runs and zero otherwise |
| SessionChecks.CheckedAtBehind | robotis_ai_setup/modal_inference/server_core.py:589-591 | while a check runs the last one is at least a TTL old, and `checked_at` never goes back |
| SessionChecks.StartSpacing | robotis_ai_setup/modal_inference/server_core.py:482-506 | a check starts no sooner than the TTL after any success and two seconds after any failure |
| SessionChecks.RunSpacing | robotis_ai_setup/modal_inference/server_core.py:482-487 | successive failures of one run are at least two seconds apart |
| SessionChecks.FewFailuresBehindAdmitted | robotis_ai_setup/modal_inference/server_core.py:584-591 | an observation served in a failing run has at most fifteen failures behind it |
| LogBuffers.LogBuffer.Append | robotis_ai_setup/modal_training/training_handler.py:1849-1863 | one more line, terminated, to the head while it fits and nothing is in the tail, else to the tail with the oldest lines dropped; the byte counters stay exact |
| LogBuffers.LogBuffer.DropOldest | robotis_ai_setup/modal_training/training_handler.py:1860-1863 | the loop drops exactly the oldest lines that no longer fit |
| LogBuffers.LogBuffer.DropOne | robotis_ai_setup/modal_training/training_handler.py:1861-1863 | one line leaves the tail, the counters with it |
| LogBuffers.LogBuffer.ToText | robotis_ai_setup/modal_training/training_handler.py:1865-1871 | head, the note of the lines dropped, tail |
| BoundedLog.ShapeIff | robotis_ai_setup/modal_training/training_handler.py:1849-1863 | the buffer holds a prefix and a suffix with exactly `_dropped` lines missing between them exactly when no line ever goes to the head after a drop |
| BoundedLog.RunIsIdeal | robotis_ai_setup/modal_training/training_handler.py:1849-1863 | then it holds the longest head that fits and the longest tail that fits beside it |
| BoundedLog.ShortLinesKeepShape | robotis_ai_setup/modal_training/training_handler.py:1849-1863 | lines of at most LOG_MAX_BYTES - LOG_HEAD_BYTES bytes always keep that shape |
| BoundedLog.AlwaysInBounds | robotis_ai_setup/modal_training/training_handler.py:1418-1419 | whatever the lines, the bytes held stay within the limits and lines held plus dropped are the lines added |
| LogBuffers.RenderFits | robotis_ai_setup/modal_training/training_handler.py:1418-1419 | the rendered log is at most 32 MiB |
| LogBuffers.LongLineBreaksShape | robotis_ai_setup/modal_training/training_handler.py:1854-1863 | one over-long line: it is dropped, the next goes to the head, and the note of omission stands after it |
| StepNames.StepIdReads | robotis_ai_setup/modal_training/training_handler.py:1383-1385 | a checkpoint directory's name is digits and reads back as its step |
| StepNames.StepIdWidth | robotis_ai_setup/modal_training/training_handler.py:1383-1385 | the names of one run are all equally long |
| WorkerApi.Worker.Api | robotis_ai_setup/modal_training/training_handler.py:1959-1991 | one API call: at most 21 POSTs, each right after a look that found the fence clear, 429 waits that begin in the call and never pass the deadline, a 401 sets the fence; once fenced nothing is sent |
| WorkerApi.Worker.Send | robotis_ai_setup/modal_training/training_handler.py:1968-1980 | one POST, only after a clear look, and its answer |
| WorkerApi.Worker.RetryAfter | robotis_ai_setup/modal_training/training_handler.py:2539-2543 | the wait asked for, held between 1 and 60 s; 5 s when it cannot be read |
| WorkerApi.Worker.Fence | robotis_ai_setup/modal_training/training_handler.py:1938-1953 | setting the fence stops the uploader and leaves LeRobot dead |
| WorkerTrace.DoneMeansStored | robotis_ai_setup/modal_training/training_handler.py:2227-2277 | in every safe history `ckpt-done` for a step comes after every file of the step's one manifest was PUT with a 2xx |
| WorkerTrace.StatesMoveForward | robotis_ai_setup/modal_training/training_handler.py:2188-2203 | a checkpoint's state only moves from untouched to put to uploaded or skipped, and a final state is never left |
| WorkerTrace.StraightIff | robotis_ai_setup/modal_training/training_handler.py:2234-2277 | a checkpoint goes from untouched straight to uploaded exactly when `upload-url` was just answered 409 `already_ready`, and straight to skipped exactly when a file is missing or `upload-url` was just answered 422 or 409 `already_refused`; otherwise its files were all stored and `ckpt-done` was just answered |
| WorkerTrace.UploadedMeans | robotis_ai_setup/modal_training/training_handler.py:2248-2266 | an uploaded checkpoint has all files of its manifest stored and its `ckpt-done` answered 200, or the API said that it has it already |
| WorkerTrace.StraightToUploaded | robotis_ai_setup/modal_training/training_handler.py:2248-2250 | a history that goes straight to uploaded |
| WorkerTrace.StraightToSkipped | robotis_ai_setup/modal_training/training_handler.py:2219-2222 | a history that goes straight to skipped |
| WorkerTrace.PrunedOnlyWhenSettled | robotis_ai_setup/modal_training/training_handler.py:2205-2211 | what is pruned is older than the newest complete checkpoint as last looked up and, when that only moves forward, at every later time; a mirror or final one past the resume step was uploaded or skipped before |
| WorkerTrace.LateIff | robotis_ai_setup/modal_training/training_handler.py:1967-1974 | a POST or checkpoint PUT begins once the fence is set exactly when the fence was set between the look that found it clear and the request |
| WorkerTrace.AtMostOneLate | robotis_ai_setup/modal_training/training_handler.py:1967-1974 | a thread begins at most one such request, and none after it |
| WorkerTrace.LateOnlyByRace | robotis_ai_setup/modal_training/training_handler.py:2290-2294 | so a thread has begun one request once fenced if it lost that race, and none if it did not |
| WorkerTrace.LateHappens | robotis_ai_setup/modal_training/training_handler.py:1967-1971 | the race can be lost: a look, the fence, the POST |
| WorkerTrace.AtMostFiveStarts | robotis_ai_setup/modal_training/training_handler.py:2375-2382 | `start` is called at most five times |
| WorkerTrace.SpawnedOnce | robotis_ai_setup/modal_training/training_handler.py:2396-2447 | LeRobot is spawned at most once, after an accepted start answer and a successful first running write |
| WorkerTrace.FinishedOnce | robotis_ai_setup/modal_training/training_handler.py:2037-2061 | finish is entered at most once |
| Uploader.CheckpointUploader.MakeManifest | robotis_ai_setup/modal_training/training_handler.py:2213-2225 | a step's manifest covers exactly the step's files, is made once and kept; a missing file gives none and is noted |
| Uploader.CheckpointUploader.PutFiles | robotis_ai_setup/modal_training/training_handler.py:2279-2312 | the result is `ok` only when every file of the manifest was PUT with a 2xx |
| Uploader.CheckpointUploader.PutOne | robotis_ai_setup/modal_training/training_handler.py:2290-2311 | at most three PUTs of one file, each after a clear look at the flags |
| Uploader.CheckpointUploader.StoreOnce | robotis_ai_setup/modal_training/training_handler.py:2234-2260 | one ask for the links, of at most 21 POSTs; no other follows once the files are stored or the step is settled |
| Uploader.CheckpointUploader.AskAndStore | robotis_ai_setup/modal_training/training_handler.py:2234-2262 | the links are asked for at most four times, with at most four times 21 POSTs in all; the step moves to put only with all files stored, and a refusal is settled as the API says |
| Uploader.CheckpointUploader.StoreFiles | robotis_ai_setup/modal_training/training_handler.py:2229-2262 | the same from the hashing on: a missing file settles the step too, an exception leaves it for the next tick |
| Uploader.CheckpointUploader.UploadStep | robotis_ai_setup/modal_training/training_handler.py:2227-2277 | what a step may settle to, with the answer that justifies it |
| Uploader.CheckpointUploader.Prune | robotis_ai_setup/modal_training/training_handler.py:2205-2211 | removes exactly the older checkpoints that are settled, not needed, or not past the resume step |
| Uploader.CheckpointUploader.Tick | robotis_ai_setup/modal_training/training_handler.py:2188-2203 | one tick keeps the history safe and the states coupled to it, whatever the disk, the API and the other threads do; when it gets to its end, every older checkpoint that is settled or not needed was pruned |
| Uploader.CheckpointUploader.Loop | robotis_ai_setup/modal_training/training_handler.py:2314-2325 | after any number of ticks: every `ckpt-done` came after all files of the one manifest were stored, states moved only forward, nothing was pruned that was newest then or later, or still needed and unsettled, uploaded means stored and accepted or already there, and a request began once fenced only by losing the race, once at most |
| ManagedRuns.FewWaits | robotis_ai_setup/modal_training/training_handler.py:1400-1402 | eight waits of the start-class delays do not fit in 600 s |
| ManagedRuns.ManagedRun.StartClass | robotis_ai_setup/modal_training/training_handler.py:1993-2007 | the retry loop ends: at most eight tries, and every wait begins after the loop did and ends by the give-up time 600 s from its beginning |
| ManagedRuns.ManagedRun.Repeat | robotis_ai_setup/modal_training/training_handler.py:1996-2007 | it gives up only when the next wait would not fit before the give-up time |
| ManagedRuns.ManagedRun.OnceStart | robotis_ai_setup/modal_training/training_handler.py:2013-2029 | a start answer counts only when valid; 401 and 409 stop with the fence set; everything else is retried |
| ManagedRuns.ManagedRun.OnceFinish | robotis_ai_setup/modal_training/training_handler.py:2044-2054 | finish is done exactly on 200, stops exactly on 401 or 409, else is retried |
| ManagedRuns.ManagedRun.OnceWrite | robotis_ai_setup/modal_training/training_handler.py:2080-2097 | the first running write: done, else stopped exactly when fenced, else retried |
| ManagedRuns.ManagedRun.CallStart | robotis_ai_setup/modal_training/training_handler.py:2009-2035 | no answer means the fence is set, an answer means an accepted start; its waits all lie within 600 s of the loop's beginning |
| ManagedRuns.ManagedRun.CallFinish | robotis_ai_setup/modal_training/training_handler.py:2037-2061 | marks the finish, which had not begun before, and ends with finish accepted or the fence set; its waits all lie within 600 s of the loop's beginning |
| ManagedRuns.ManagedRun.FirstRunningWrite | robotis_ai_setup/modal_training/training_handler.py:2093-2103 | either a successful running write was made or the fence is set; its waits all lie within 600 s of the loop's beginning |
| ManagedRuns.ManagedRun.CallCkptBad | robotis_ai_setup/modal_training/training_handler.py:2063-2077 | at most four calls, of 21 POSTs at most; a verdict on the checkpoint is one the API just gave, a stop means the fence is set |
| ManagedRuns.ManagedRun.UploadLog | robotis_ai_setup/modal_training/training_handler.py:2334-2361 | best effort, no stage of the run is affected |
| ManagedRuns.ManagedRun.AwaitExit | robotis_ai_setup/modal_training/training_handler.py:2462-2472 | the poll loop ends by LeRobot's exit, the fence or the budget, and LeRobot is gone then |
| ManagedRuns.ManagedRun.AwaitUpload | robotis_ai_setup/modal_training/training_handler.py:2486-2489 | the wait for the final upload ends because it is settled, because of the fence, or after 1080 s, and no second of it ends more than 1081 s after its beginning |
| ManagedRuns.ManagedRun.PrepareResume | robotis_ai_setup/modal_training/training_handler.py:2410-2441 | a bad checkpoint starts over only when the API refuses it; everything else that goes wrong finishes, or stops fenced |
| ManagedRuns.ManagedRun.Prepare | robotis_ai_setup/modal_training/training_handler.py:2374-2441 | the start and resume loop: five starts at most, and LeRobot is reached only with an accepted start and a successful first running write |
| ManagedRuns.ManagedRun.Train | robotis_ai_setup/modal_training/training_handler.py:2443-2512 | LeRobot is spawned once and gone in the end; without the fence the run has finished and finish was accepted |
| ManagedRuns.ManagedRun.Run | robotis_ai_setup/modal_training/training_handler.py:2364-2512 | every run: at most five starts; LeRobot spawned at most once, after an accepted start and a successful first running write, and gone in the end; finish entered exactly once unless the run ends stopped, and accepted unless fenced; every wait of every retry loop ends by its give-up time; a request begun once fenced only by losing the race, once at most |
| UnionFind.HalvingKeepsRoots | tools/build_v1_urdf_assets.py:50-51 | one step of path halving keeps the forest and changes no root |
| UnionFind.UnionMergesRoots | tools/build_v1_urdf_assets.py:62 | linking two roots moves exactly the second's tree under the first |
| UnionFind.Find | tools/build_v1_urdf_assets.py:49-52 | `find` terminates, returns the root and changes no element's root |
| EdgeRecords.SortKeepsFaces | tools/build_v1_urdf_assets.py:53-56 | the stable sort keeps, for every edge, the list of its faces in order |
| EdgeRecords.PairIsNext | tools/build_v1_urdf_assets.py:59-61 | where an edge counted twice starts, the next record is its other face, and there is no third |
| EdgeRecords.PairHasStart | tools/build_v1_urdf_assets.py:59-60 | every edge with exactly two records has such a start |
| Components.UniteOne | tools/build_v1_urdf_assets.py:61-62 | one union keeps: same root exactly when linked by the pairs so far |
| Components.Unite | tools/build_v1_urdf_assets.py:48-63 | after all unions, two faces have the same root exactly when a chain of pairs links them |
| Components.RootList | tools/build_v1_urdf_assets.py:63 | asking for every root changes none |
| Components.Split | tools/build_v1_urdf_assets.py:64 | one part per root, in ascending order of roots |
| Components.GroupsPartition | tools/build_v1_urdf_assets.py:64 | the parts partition the faces |
| Components.PairsAreManifold | tools/build_v1_urdf_assets.py:53-60 | two faces are paired exactly when they share an edge that has exactly two records |
| Components.ConnectedIsLinked | tools/build_v1_urdf_assets.py:57-62 | chains of pairs are chains of neighbours across such edges |
| Components.ComponentsOf | tools/build_v1_urdf_assets.py:41-64 | the result partitions the triangles, and two share a part exactly when a chain of faces links them, each next to the other across an edge with exactly two records |
| Decimation.Accumulate | tools/build_v1_urdf_assets.py:86-87 | the in-place sums and counts are, for every voxel, the sum and number of its vertices |
| Decimation.Decimate | tools/build_v1_urdf_assets.py:79-94 | each kept face with every corner replaced by its voxel's mean; the mesh itself for a voxel size of zero or less |
| Decimation.RepInCell | tools/build_v1_urdf_assets.py:84-88 | a mean never leaves its voxel |
| Decimation.RepBetween | tools/build_v1_urdf_assets.py:80-81 | a mean lies between any bounds of the vertices it stands for |
| Decimation.MovesLessThanVoxel | tools/build_v1_urdf_assets.py:84-88 | a vertex and its representative are less than one voxel apart along every axis |
| Decimation.StaysInBounds | tools/build_v1_urdf_assets.py:80-81 | the output lies in every axis-aligned bound of the input: the bounding box can only shrink |
| Decimation.KeptExactly | tools/build_v1_urdf_assets.py:90-93 | the faces that come out are, in order, exactly those at which three different voxels are first joined; none repeats a voxel, no two join the same three |
| Decimation.Idempotent | tools/build_v1_urdf_assets.py:79-94 | decimating again at the same voxel size changes nothing |
| SightLines.SegHitsAabb | tools/generate_v1_mat.py:190-204 | for all inputs: true exactly when some t in [0, 1] is between every pair of planes, components under 1e-12 taken as flat |
| SightLines.ReportedIsCrossing | tools/generate_v1_mat.py:190-204 | for a proper box and no rounded component: true exactly when a point of the segment is in the box |
| SightLines.ExactIffNoneRounded | tools/generate_v1_mat.py:194 | a segment is told right on every box exactly when no non-zero component is under 1e-12 |
| SightLines.HomeBoxHoldsImage | tools/generate_v1_mat.py:223-230 | the box of the eight mapped corners contains the image of the whole link box |
| SightLines.HomeBoxIsLeast | tools/generate_v1_mat.py:223-230 | and no smaller box does |
| SightLines.AnyHit | tools/generate_v1_mat.py:256-257 | true exactly when some home box is hit |
| SightLines.ClearOccluded | tools/generate_v1_mat.py:254-258 | the mask keeps exactly the candidates none of whose home boxes is hit; the candidates are not changed |
| SightLines.KeptCellsAreSeen | tools/generate_v1_mat.py:254-258 | no point of any link's box lies on the sight segment of a kept cell |
| EnvQuoting.QuotesUndone | robotis_ai_setup/pi_agent/config_generator.py:148-163 | undoing the escaped quotes first gives the value with its backslashes doubled |
| EnvQuoting.RoundTrip | robotis_ai_setup/pi_agent/config_generator.py:148-163 | for every string, unquoting what was quoted gives it back, although each side is two global replacements |
| EnvLines.ReadEnvVar | robotis_ai_setup/pi_agent/config_generator.py:386-405 | the loop returns the first entry's unquoted value |
| EnvLines.ReadUnlines | robotis_ai_setup/pi_agent/config_generator.py:394-395 | lines without breaks are read back as written |
| EnvLines.WrittenEntry | robotis_ai_setup/pi_agent/config_generator.py:398-404 | a written line is found under its key |
| EnvLines.LookupOneLine | robotis_ai_setup/pi_agent/config_generator.py:386-405 | no value that is read ever holds a line break |
| EnvUpsert.UpsertEnvVar | robotis_ai_setup/pi_agent/config_generator.py:408-459 | the file written: the loop over the lines, then the trailing newlines stripped |
| EnvUpsert.EditLines | robotis_ai_setup/pi_agent/config_generator.py:437-454 | the new line in the place of the first one for its key or at the end, repeats gone |
| EnvUpsert.ReadRendered | robotis_ai_setup/pi_agent/config_generator.py:456-459 | the file read again gives the lines, but for empty ones at the end |
| EnvUpsert.ReadsBackIff | robotis_ai_setup/pi_agent/config_generator.py:408-459 | a quoted non-empty value reads back exactly when it holds no line break; an empty one removes the key |
| EnvUpsert.RawReadsBackIff | robotis_ai_setup/pi_agent/config_generator.py:420-429 | an unquoted value without line breaks reads back exactly when no whitespace is at its ends and it is not in quotes |
| EnvUpsert.KeepsTheRest | robotis_ai_setup/pi_agent/config_generator.py:408-459 | the key has one line, or none for an empty value; every other key reads as before; the other lines stay in order up to trailing empty ones |
| EnvUpsert.StandsInPlace | robotis_ai_setup/pi_agent/config_generator.py:437-459 | the file after an upsert, line by line: up to the key's first line as before, then the new line, then the rest without the key; with no line for the key, all lines as before and the new one last |
| Selection.PutInPlace | robotis_ai_setup/pi_agent/config_generator.py:440-451 | what stands before the first line of the key does not move |
| Selection.PutAtEnd | robotis_ai_setup/pi_agent/config_generator.py:453-454 | a key without a line gets its line after all others |
| EnvRegenerate.ReadUnmanagedLines | robotis_ai_setup/pi_agent/config_generator.py:338-383 | exactly the lines without an owned or legacy key and without the marker, leading blank ones stripped |
| EnvRegenerate.RegeneratedReads | robotis_ai_setup/pi_agent/config_generator.py:591-637 | for any set of owned keys: every setting written reads back, every other owned key is absent, all the rest reads as before |
| EnvRegenerate.PreservedAgain | robotis_ai_setup/pi_agent/config_generator.py:356-383 | what was carried over once is carried over again, line for line |
| EnvGenerate.GenerateEnvFile | robotis_ai_setup/pi_agent/config_generator.py:518-637 | the whole generator with its refusals, in the order they are tried |
| EnvGenerate.AddCameras | robotis_ai_setup/pi_agent/config_generator.py:609-623 | the first camera without a role refuses the file; else one pair of lines per camera, numbered from one |
| EnvReads.KeyTextInjective | robotis_ai_setup/pi_agent/config_generator.py:98-136 | the keys the generator writes, numbered camera keys included, are all different |
| EnvReads.GeneratedReads | robotis_ai_setup/pi_agent/config_generator.py:518-637 | over any existing file: every line written reads back as its value, every other managed key and the legacy token pair are absent, every other key reads as before |
| EnvReads.PortsRead | robotis_ai_setup/pi_agent/config_generator.py:593-607 | the follower reads back; the leader reads back or is absent; the mode and the sticky keys read back |
| EnvReads.CamerasRead | robotis_ai_setup/pi_agent/config_generator.py:609-623 | camera n reads back while there is such a camera and is absent otherwise |
| EnvReads.FollowerReadsIff | robotis_ai_setup/pi_agent/config_generator.py:593 | the follower's path reads back exactly when it holds no line break |
| EnvReads.LeaderReadsIff | robotis_ai_setup/pi_agent/config_generator.py:594-600 | so does the leader's while it is in use |
| EnvReads.CameraReadsIff | robotis_ai_setup/pi_agent/config_generator.py:609-623 | and each camera's |
| EnvReads.AllPathsReadIff | robotis_ai_setup/pi_agent/config_generator.py:591-623 | all paths written read back exactly when none of them holds a line break |
| EnvReads.ChosenAgain | robotis_ai_setup/pi_agent/config_generator.py:257-302 | the sticky choices made for a file are made again over the file written with them |
| EnvReads.GeneratedAgain | robotis_ai_setup/pi_agent/config_generator.py:518-637 | generating again with the same inputs gives the identical text |
| SelfUpdate.StepKeeps | robotis_ai_setup/pi_agent/agent.py:1731-1822 | every step, power loss included, keeps: the live tree is missing or one complete release, and when missing the tree set aside is complete; steps go on after an incomplete clearing of `pi_agent.new` only with nothing in the copy's way |
| SelfUpdate.AlwaysBoots | robotis_ai_setup/pi_agent/agent.py:1731-1822 | through any such updates and power losses, the restore-on-start step always yields one complete release |
| SelfUpdate.LiveWhenIdle | robotis_ai_setup/pi_agent/agent.py:1811-1822 | while no rename back fails, an idle agent has its live tree, so every apply may begin |
| SelfUpdate.LeftRightIff | robotis_ai_setup/pi_agent/agent.py:1745-1751 | going on after an incomplete clearing of `pi_agent.new` keeps every later state safe and installs the release exactly when each file left is one of the release's and, if it has the same size and time, the same content: the copy passes over such files |
| SelfUpdate.MixedTreeGoesLive | robotis_ai_setup/pi_agent/agent.py:1741-1751 | a leftover `VERSION` of the same size and time as the new one: a run that ends with a live tree that is no release |
| SelfUpdate.AppliedOrUnchanged | robotis_ai_setup/pi_agent/agent.py:1731-1822 | an apply that ends says it succeeded exactly when the new release is live and the former is kept aside; else the former is live, or aside when renaming it back failed |
| SelfUpdate.BegunWithoutLive | robotis_ai_setup/pi_agent/agent.py:1801-1805 | an apply begun while `pi_agent` is missing has a run that ends with neither tree |
| SelfUpdate.BeginSafeIff | robotis_ai_setup/pi_agent/agent.py:1801-1822 | an apply is safe to begin exactly while `pi_agent` is there |
| CameraPreview.StepInv | robotis_ai_setup/pi_agent/agent.py:2070-2168 | every step of every thread keeps the lock ownership, the generations and the registry of open captures consistent |
| CameraPreview.OneCapture | robotis_ai_setup/pi_agent/agent.py:2084-2095 | in every interleaving at most one capture is open |
| CameraPreview.OpensAlone | robotis_ai_setup/pi_agent/agent.py:2119-2135 | a capture opens only after every earlier one was released and deregistered, and never while a lifecycle operation holds its lock, whether or not that operation stops previews |
| CameraPreview.OneLateFrame | robotis_ai_setup/pi_agent/agent.py:2149-2158 | a superseded loop reads at most one more frame |
| CameraPreview.NeverStuck | robotis_ai_setup/pi_agent/agent.py:2096-2135 | condition-then-try-lock and lock-then-condition never deadlock |
| CameraPreview.LeakIsForever | robotis_ai_setup/pi_agent/agent.py:2141-2148 | when writing the headers fails the preview's entry stays registered for good and no preview ever opens a capture again |
| CameraPreview.LeakHappens | robotis_ai_setup/pi_agent/agent.py:2084-2148 | a run from the beginning in which that happens |
| CameraPreview.OpensAgainIff | robotis_ai_setup/pi_agent/agent.py:2115-2148 | from any reachable state some run opens a capture again exactly when no preview has leaked its entry |
| JetsonTrace.FewStrikes | robotis_ai_setup/jetson_agent/agent.py:854-919 | between two resets an owner has at most three failing bring-ups |
| JetsonTrace.WipedBetween | robotis_ai_setup/jetson_agent/agent.py:960-1036 | between a successful claim and any later bring-up the proxy stopped, then the stack went down, then the volumes were wiped |
| JetsonTrace.ProxyOwned | robotis_ai_setup/jetson_agent/agent.py:1022-1036 | at every moment: the proxy runs without a successfully claimed owner recorded exactly while it is coming up, before the claim counts, and between the clearing of the owner and the proxy's stop |
| JetsonTrace.SafeHistory | robotis_ai_setup/jetson_agent/agent.py:854-1040 | all of it together, for every prefix of a process's history |
| JetsonAgents.JetsonAgent.TransitionToClaimed | robotis_ai_setup/jetson_agent/agent.py:854-919 | ends with the owner recorded and the proxy running, or with neither |
| JetsonAgents.JetsonAgent.BringUp | robotis_ai_setup/jetson_agent/agent.py:879-881 | the proxy runs exactly when all of it worked |
| JetsonAgents.JetsonAgent.Fail | robotis_ai_setup/jetson_agent/agent.py:885-911 | the counter goes up by one, the rest is torn down and the lock freed |
| JetsonAgents.JetsonAgent.TransitionToReleased | robotis_ai_setup/jetson_agent/agent.py:960-970 | when it returns, proxy, stack and volumes were dealt with in that order; the proxy is stopped either way |
| JetsonAgents.JetsonAgent.Round | robotis_ai_setup/jetson_agent/agent.py:977-1040 | a failed heartbeat changes nothing; after any other round the proxy runs exactly while the owner recorded is one who claimed; a change of owner includes a whole release |
| JetsonAgents.JetsonAgent.ChangeOwner | robotis_ai_setup/jetson_agent/agent.py:1005-1021 | everything of the first owner is released before the second is tried |
| JetsonAgents.JetsonAgent.DropOwner | robotis_ai_setup/jetson_agent/agent.py:1022-1036 | the counters are reset and nothing of the session is left; on the way the owner is cleared while the proxy still runs |
| JetsonAgents.JetsonAgent.Serve | robotis_ai_setup/jetson_agent/agent.py:973-1086 | any number of rounds with any answers: at every moment the proxy has its claimed owner but for the two windows, three strikes at most, a whole release between a claim and a later bring-up; the process ends with the proxy stopped |
| PackageLines.Pep503Idempotent | robotis_ai_setup/modal_training/make_training_lock.py:111-112 | normalising is idempotent, and its fixed points are exactly the normal names |
| PackageLines.ParsePinned | robotis_ai_setup/modal_training/check_training_lock.py:24 | a `name==version` line parses back into its parts |
| PackageLines.ParsedIsPinned | robotis_ai_setup/modal_training/make_training_lock.py:124-126 | and only such lines parse |
| NameOrder.Sorted | robotis_ai_setup/modal_training/make_training_lock.py:133 | the names of a set, each once, strictly ascending |
| TrainingLocks.ParseFreeze | robotis_ai_setup/modal_training/make_training_lock.py:115-133 | accepts exactly the freezes the line rule accepts, and lists each name once, sorted, with its last version, pip left out |
| TrainingLocks.FreezeGood | robotis_ai_setup/modal_training/make_training_lock.py:124-130 | what a freeze puts in the dictionary: normal names other than pip, versions without whitespace or semicolon |
| TrainingLocks.ReadLock | robotis_ai_setup/modal_training/check_training_lock.py:31-46 | reads the dictionary or refuses: a bad line, a repeated name, an empty lock |
| TrainingLocks.RoundTrip | robotis_ai_setup/modal_training/make_training_lock.py:115-138 | for every freeze accepted, the printed lock is read back as exactly its dictionary |
| LockChecks.InstalledDistributions | robotis_ai_setup/modal_training/check_training_lock.py:49-56 | every normalised name with all versions found for it, in order |
| LockChecks.Compare | robotis_ai_setup/modal_training/check_training_lock.py:59-76 | reports exactly the problems there are |
| LockChecks.NoProblemIff | robotis_ai_setup/modal_training/check_training_lock.py:59-76 | nothing is reported exactly when every entry is installed at its one version, nothing forbidden is there and, strictly, nothing else but the tools |
| LockChecks.CheckPrinted | robotis_ai_setup/modal_training/check_training_lock.py:31-76 | printer, parser and comparison together: the strict check passes exactly when the installed packages are those of the freeze |

## Left out

- Subprocesses, Docker, systemd, HTTP, Supabase, Hugging Face, Modal and GPU calls: their outcomes are arbitrary values.
- Float rounding, float32 storage and text encodings: reals, characters, and UTF-8 lengths only where the log counts bytes.
- Hash functions: a file's digest is an arbitrary number fixed when the manifest is made; a file that changes between hashing and its PUT is not modelled.
- The inference app around the entry (connect, frame decoding, the wire protocol, the engine) and the entry's statistics.
- Exceptions the code does not name, such as an invalid URL in an API call; in the uploader only the hashing of files may raise.
- The progress heartbeat and the parsing of LeRobot's output: they only read or raise flags the modelled threads look at.
- WorkerTrace.DoneMeansStored: does not model what the storage holds, only that each PUT was answered with a 2xx.
- WorkerTrace.AtMostOneLate: allows the one request already looked for, because the original looks at the fence and then sends without a lock.
- A kill of LeRobot, or of the Jetson's proxy, that does not work.
- Decimation.Decimate: compares voxels directly where the original numbers them with `np.unique`; the numbering does not matter to the result.
- Components.ComponentsOf: takes faces over vertex numbers; the numbering of equal vertices by `np.unique` is not modelled.
- The camera projection, the reach ring and the tag size that make a cell a candidate: trigonometry; candidates are arbitrary.
- EnvReads.GeneratedReads: needs paths and a requested subnet without line breaks, release pins that need no quotes and `ipaddress` functions whose normal forms of such subnets are stable; a path with a line break can put lines of its own into the file, and so can a subnet with one in its scope id.
- `generate_cloud_only_env`: its header comment is carried over on every rewrite, so it is not idempotent, and the rest of it repeats what is proved of `generate_env_file`.
- Writing the `.env` file atomically, its mode, and how the ROS domain number is found; the number is a parameter.
- The durability of renames and of flushed files: a rename happens at once or not at all, and what `fsync` was asked to keep is kept. The byte-code cache that `compileall` leaves in a tree is not counted among its files.
- The tarball's extraction and validation before the swap.
- CameraPreview.LeakIsForever: speaks of the registry, not of the camera's handle, which is freed with the frame of the failed request.
- The preview's timeout for the hand-off: a waiting preview may wake at any time, which covers every timeout.
- The proxy's own death while it should run, and the cloud API's answer to a release request.
- PackageLines.Pep503Idempotent: lower-cases ASCII letters only; the lock's names are ASCII by the line rule, names of installed distributions with other letters are not modelled.
- Message texts, the exit codes of the lock programs, `pip check` parsing and the hash module of the lock.
- Legacy training, dataset preflight, profile registries beyond what the `.env` generator branches on, drawing and PDF code, the other agents' command wrappers.
