# Bounded OpenCL queues and deterministic packaging, modelled in Dafny

The repository ships a LiteRT runtime for Android whose GPU work is kept short by waiting on the OpenCL
queue, and the scripts that package that runtime reproducibly. This project models both and proves what
they are for. `dafny verify dfyconfig.toml` checks everything.

## The bounded queue

Two C shims interpose `clEnqueueNDRangeKernel`. The experimental one keeps a table of 32 per-queue
counters and waits after every N-th counted kernel of a queue; the production one waits after every
kernel. A patch puts the same idea into the delegate's dispatch loop.

| module | what it holds |
|---|---|
| `ShimCore`, `Shims` | the two shims as step machines: every atomic access, vendor call, critical section and device completion is one labelled step of one of any number of threads. The vendor library is nondeterministic within the in-order queue rule (section 3.2.1 of OpenCL 1.2) and the event rules (section 5.9 of OpenCL 1.2). Histories beside the state are never read by the shims |
| `ShimCalls`, `QueueShim`, `BoundedShim`, `QueueCounters` | the C code in its own form: objects updated in place, the slot-search loop, the compare-and-swap loop, the stores of a reset. Every method's contract says that it is a run of the step machine |
| `QueueTable` | the table as a value, against the history of dispatches |
| `BoundedWindow` | an abstract bounded window on one queue, which the shims and the dispatch loop refine |
| `ShimEquivalence` | production = experimental with window 1, in both directions |
| `KernelBound`, `Schedules`, `BoundExactness` | the bound on unfinished kernels, and runs that reach it |
| `HandleLimit`, `RepeatedInferences` | exactly how many queue handles, and which repeated inferences, the bound survives |
| `DocumentedRule` | the documented rule against what the shim counts |
| `Coverage` | that the shims pass on every call and count every kernel while inference stays enabled, so that the bound is one on all kernels |
| `WaitAccounting`, `WaitTrace`, `WaitMaximum`, `WaitDurations`, `EventOwnership`, `CallStatus`, `Passthrough` | counters and what they say about the vendor calls, the running maximum, where the durations come from, event ownership, what callers are told, and when the shims only forward |
| `DispatchLoop` | the patched and the unpatched loop as methods, and what the patch changes |
| `Counting`, `Wrappers` | quotients and finite sets; values that may be missing |

Threads are whole step sequences interleaved in any way: flag toggles, resets, failures, spurious
compare-and-swap failures, NULL queues, clocks that run backwards and any number of queues are part of
every theorem unless it says otherwise.

## The packaging

| module | what it holds |
|---|---|
| `Names`, `Archive` | pure POSIX path normalisation, Python's string order, the normalising archive writer and the two readers |
| `Splice` | counting and replacing byte patterns, and the three patch scripts |
| `Checksums` | the checksum file as printed and as parsed |
| `ReleaseFormats`, `BundleBuilder`, `BundleVerifier`, `ReleaseContents` | the downloadable release: contract, builder, verifier, their agreement, what is accepted and what is built |
| `AarPackager`, `AarVerifier`, `AarContents` | the bounded-GPU AAR: merger, packager, verifier, their agreement, what is accepted and what is packaged |

An archive is the sequence of its members. ZIP bytes, JSON text and SHA-256 are functions in a `Codec`;
`Sound` says that decoding undoes encoding, that the zip library never presents a NUL in a name and that
digests are hexadecimal. A collision-free hash is assumed only where a theorem says so.

## What the proofs found

- With T threads and a window of N at least 2, at most T*N + T - 1 counted kernels of a tracked queue are
  unfinished, plus N for each boundary missed since the best successful wait and N - 1 for each reset since, by
  any thread and at any moment; earlier ones add nothing (`KernelsAreBounded`). `BoundIsReached` gives, for every
  T, every N, every number of misses and every number of resets, a run that reaches it. With window 1 the limit
  is T.
- While inference stays enabled no call is exempt: every kernel a queue gains is counted, whether its caller asked
  for an event or not (`EveryKernelIsCounted`), so the bound is one on all of them (`EveryKernelIsBounded`).
- "While at most 32 queues are used the table is a map" is false: a dispatch on the NULL queue needs an
  empty slot too and, with 32 slots taken, evicts the first queue (`NullDispatchEvicts`). The table is a
  map exactly while no dispatch finds it full of other queues (`MapExactlyWhileItFits`).
- Without resets the kernels on each queue have a common limit exactly when the calls use at most 32 handles,
  NULL included, or the window is 1 (`BoundedExactlyUpToTheTable`). With 33 handles there are runs in which
  nothing but NULL enqueues fails, the shim never waits at all, and any number of kernels is unfinished
  (`ManyHandlesOverrun`).
- A reset empties the table. Over inferences with a reset before each, kernels on a queue stay bounded exactly
  when one inference counts at least N of them or none (`BoundedExactlyWhenWindowsFill`).
- `experiments/opencl-queue-window/README.md` says that successful enqueues are counted. The code counts
  before it enqueues, so a failed enqueue uses up its place in the window; the model follows the code. With
  N = 2, a success, a failure and a success are two successful enqueues without a wait
  (`TwoSuccessesWithoutWait`). From any moment between two calls of a run the shim goes on as documented exactly
  when the failed enqueues on the queue so far are a multiple of N (`RunsFollowTheRule`).
- Equal dispatch and wait counts at quiescence establish one wait per kernel exactly when the last reset
  carried nothing over: the calls in flight when it zeroed the dispatch counter are as many as the waits
  recorded before it zeroed the wait counter (`EqualCountsMeanOneWaitEach`). A quiescent reset is such a one;
  in `CarriedWaitHidesLoss` a wait carried over a reset hides a call that was never waited for. After such a
  reset the counts are equal exactly when the vendor saw one wait for each counted enqueue and for each call
  that the zeroing caught between its enqueue and its wait, and no clock ran backwards
  (`EqualCountsSinceZeroing`).
- The dispatch loop's counter starts at zero in every inference, and the loop ignores the result of `Wait()`.
  Over repeated error-free inferences the batches without a successful wait stay bounded if and only if some wait
  of one inference succeeds, for which it needs at least N batches (`RepeatedInferencesAreBounded`); when every
  wait fails no number of batches bounds them (`FailedWaitsAreUnbounded`). Within an
  inference each failed wait since the last successful one allows one more window (`UnconfirmedAreBounded`,
  `BatchesAreBounded`), and that limit is reached (`FailedWaitsReachTheLimit`).
- Read-back of an archive is exact if and only if no name holds a NUL, because the zip library ends a name
  there (`ReadsBackExactly`). A checksum file is accepted if and only if no asset's name holds a line break
  (`RoundTrip`).
- The API AAR drops `jni/` entries by their raw names and normalises afterwards. Builder and verifier agree if
  and only if no kept name normalises into a dropped one (`BuiltReleasesVerify`), and beside every accepted
  release there is one, with an entry `./jni/x` more in its source, that the builder makes and the verifier
  refuses (`RefusedRelease`). The bounded-GPU AAR has the same gap (`PackagesVerify`, `RefusedPackage`).
- The verifier compares the file list of a CPU bundle's manifest with the contract, but never reads that of the
  GPU bundle's: any accepted GPU bundle stays accepted with anything in its place (`GpuManifestMayMisdescribe`).

- The checksum file fixes the whole release directory: with a collision-free hash two accepted directories with
  the same one are equal (`ChecksumsFixTheDirectory`), and a manifest of the bounded-GPU AAR admits one AAR and one
  contract (`ManifestsAdmitOneAar`).
- What the verifiers accept is stated without their bodies, both ways: which archives (`NormalizedReaderTakes`), which
  directories (`AcceptedExactly`), which bundles (`CpuBundlesAreExactly`, `GpuBundlesAreExactly`,
  `ApiAarsAreExactly`) and which AARs (`VerifiedExactly`).

## Model

| member | source | states |
|---|---|---|
| QueueTable.MapExactlyWhileItFits | experiments/opencl-queue-window/opencl_queue_shim.c:120-141 | for every history of dispatches: each queue's slot holds its true count if and only if no dispatch found the table full of other queues |
| QueueTable.NullDispatchEvicts | experiments/opencl-queue-window/opencl_queue_shim.c:122-137 | 32 queues followed by one NULL dispatch: the first queue is gone, although only 32 queues were counted |
| QueueTable.LossIsConfinedToSlotZero | experiments/opencl-queue-window/opencl_queue_shim.c:122-138 | with any number of queues no queue has two slots, the queues first seen 2nd to 32nd keep exact counts, slot 0 never over-counts |
| QueueTable.TrackedCountIsExact | experiments/opencl-queue-window/opencl_queue_shim.c:120-141 | a tracked queue's next dispatch gets its true ordinal, whatever other queues did |
| QueueTable.TrackedWaitPoints | experiments/opencl-queue-window/opencl_queue_shim.c:138-141 | a tracked queue is chosen to wait floor(count / N) times |
| QueueTable.AllWaitPoints | experiments/opencl-queue-window/opencl_queue_shim.c:138-141 | while the history fits, waits are chosen the sum of floor(count / N) over its queues, NULL dispatches included in the history |
| QueueCounters.QueueCounters.CountDispatch | experiments/opencl-queue-window/opencl_queue_shim.c:119-140 | the slot search and update in place is one tick of the table |
| QueueCounters.QueueCounters.Clear | experiments/opencl-queue-window/opencl_queue_shim.c:253-258 | the reset loop empties every slot |
| BoundedWindow.ApplyKeepsInv | experiments/opencl-queue-window/opencl_queue_shim.c:113-142 | every operation of the abstract window keeps its invariant: tickets are unique, boundaries are waited for, held or missed, and little overtakes a boundary |
| BoundedWindow.OutstandingIsWithinLimit | experiments/opencl-queue-window/opencl_queue_shim.c:191-207 | the invariant bounds unfinished commands by (T + misses) * N + T - 1 + restarts * (N - 1) |
| KernelBound.KernelsAreBounded | experiments/opencl-queue-window/opencl_queue_shim.c:113-262 | every interleaving of T threads, resets at any moment by any thread included: at most (T + m) * N + T - 1 + c * (N - 1) counted kernels of a queue that stays tracked are unfinished, where m and c count only the boundaries missed and the clearings since the best successful wait |
| KernelBound.UnclearedIsBounded | experiments/opencl-queue-window/opencl_queue_shim.c:113-207 | without a clearing it is enough that the queue is tracked at the end, and c is 0 |
| KernelBound.OneThreadIsBounded | experiments/opencl-queue-window/opencl_queue_shim.c:191-207 | one thread, k boundaries missed in a row: at most (k + 1) * N |
| KernelBound.NothingUnfinishedAfterBoundary | experiments/opencl-queue-window/opencl_queue_shim.c:205-220 | one thread, resets included: nothing counted is unfinished when a boundary wait succeeds |
| KernelBound.ProductionIsBounded | runtime/bounded-gpu/opencl_queue_shim.c:110-152 | production: at most T unfinished counted kernels on any queue, plus one for each boundary abandoned at or after the last place a wait succeeded for; resets included |
| Coverage.CallsReachTheVendor | experiments/opencl-queue-window/opencl_queue_shim.c:181-207 | over every run, each thread's calls reach the vendor once each, unchanged and in order, but for the one it carries; a caller's event pointer is passed on |
| Coverage.ProductionCallsReachTheVendor | runtime/bounded-gpu/opencl_queue_shim.c:110-135 | the same over every production run |
| Coverage.EveryKernelIsCounted | experiments/opencl-queue-window/opencl_queue_shim.c:113-142 | over every run that stays enabled, without a reset, every kernel any queue gains is counted, and the dispatch counter grows by the enqueues the vendor sees and those on their way, whatever event pointers the callers pass |
| Coverage.EveryProductionKernelIsCounted | runtime/bounded-gpu/opencl_queue_shim.c:110-135 | the same for production |
| Coverage.EveryKernelIsBounded | experiments/opencl-queue-window/opencl_queue_shim.c:113-207 | so over those runs the limit holds for all kernels of a tracked queue, counted or not |
| Coverage.FewHandlesBoundEveryKernel | experiments/opencl-queue-window/opencl_queue_shim.c:113-207 | and for all kernels of every queue when the calls use at most 32 handles, NULL included |
| Coverage.EveryProductionKernelIsBounded | runtime/bounded-gpu/opencl_queue_shim.c:110-152 | production: at most T unfinished kernels on any queue, plus one for each unsettled abandoned boundary |
| BoundExactness.BoundIsReached | experiments/opencl-queue-window/opencl_queue_shim.c:113-262 | for all T, all N of at least 2, all k and all c a run with k missed boundaries and c clearings leaves exactly (T + k) * N + T - 1 + c * (N - 1) kernels unfinished |
| HandleLimit.FewHandlesAreBounded | experiments/opencl-queue-window/opencl_queue_shim.c:113-262 | the bound for every queue when the calls use at most 32 handles, NULL included: a condition on the calls alone, resets at any moment included |
| HandleLimit.ManyHandlesOverrun | experiments/opencl-queue-window/opencl_queue_shim.c:120-142 | with 33 handles or more: for every k a run in which nothing but NULL enqueues fails, nothing is cleared, the shim never waits, and more than k kernels of one queue are unfinished |
| HandleLimit.BoundedExactlyUpToTheTable | experiments/opencl-queue-window/opencl_queue_shim.c:120-142 | over all clean runs on a set of handles, unfinished kernels of any queue have a common limit if and only if the window is 1 or the handles are at most 32 |
| RepeatedInferences.BoundedExactlyWhenWindowsFill | experiments/opencl-queue-window/opencl_queue_shim.c:242-285 | inferences with a reset before each, the last possibly unfinished: kernels of a queue have a limit over any number of them if and only if one inference counts at least N of them or none |
| RepeatedInferences.InferencesAreARun | experiments/opencl-queue-window/opencl_queue_shim.c:242-285 | those inferences are one run of the step machine |
| DocumentedRule.RuleHoldsExactly | experiments/opencl-queue-window/README.md:20-24 | for every history of accepted and refused dispatches: at every later dispatch on a tracked queue the shim waits where the documented count says, if and only if the refused ones so far are a multiple of N |
| DocumentedRule.RunsFollowTheRule | experiments/opencl-queue-window/README.md:20-24 | the same over every run of one thread, from any moment between two calls: however the run goes on without another failed enqueue on the queue |
| DocumentedRule.TwoSuccessesWithoutWait | experiments/opencl-queue-window/opencl_queue_shim.c:191-200 | a run with window 2 whose vendor calls are exactly an accepted, a refused and an accepted enqueue: two successes, no wait |
| ShimEquivalence.ExperimentalRefinesProduction | experiments/opencl-queue-window/opencl_queue_shim.c:113-220 | every run with window 1, evictions included, is a production run with the same state once the table's steps are erased |
| ShimEquivalence.ProductionRefinesExperimental | runtime/bounded-gpu/opencl_queue_shim.c:110-160 | every production run comes from an experimental run with window 1 that ends in the same state and erases back to it |
| ShimEquivalence.ShimsAreEquivalent | runtime/bounded-gpu/opencl_queue_shim.c:110-160 | both directions at once: same vendor calls, returned statuses, counters and device |
| Passthrough.OnlyForwards | experiments/opencl-queue-window/opencl_queue_shim.c:113-118 | with window 0, or while inference stays disabled, every run only forwards: no event, wait or release of the shim's own, the vendor's status returned, and no counter moves but for a reset |
| Passthrough.ProductionOnlyForwards | runtime/bounded-gpu/opencl_queue_shim.c:121-135 | the same for production while inference stays disabled |
| WaitAccounting.AlwaysBalanced | experiments/opencl-queue-window/opencl_queue_shim.c:113-220 | over every run: counted calls = recorded waits + calls in flight + failed, unwaited, unresolved and backwards-clock calls, and the counters show it since their last zeroing |
| WaitAccounting.ProductionAlwaysBalanced | runtime/bounded-gpu/opencl_queue_shim.c:110-160 | the same for production |
| WaitAccounting.WaitsNeverOutrunDispatches | runtime/bounded-gpu/opencl_queue_shim.c:154-160 | in every reachable state, after any reset, quiescent or not, waits exceed dispatches by at most the calls in flight when dispatches were zeroed |
| WaitAccounting.QuiescentAccounting | runtime/bounded-gpu/opencl_queue_shim.c:120-143 | in every state reached since a quiescent reset dispatches = waits + in flight + lost |
| WaitAccounting.EqualCounts | docs/bounded-gpu-runtime-2.2.0-bss.1-device-validation.md:50-53 | for every run: exactly when counts are equal at quiescence, whatever the last reset found |
| WaitAccounting.EqualCountsMeanOneWaitEach | docs/bounded-gpu-runtime-2.2.0-bss.1-device-validation.md:50-53 | for every run: equal counts at quiescence mean that no counted call was lost if and only if the last reset carried nothing over, and after such a reset counts are equal exactly when none was lost |
| WaitAccounting.QuiescentResetsCarryNothing | docs/bounded-gpu-runtime-2.2.0-bss.1-device-validation.md:50-53 | from a quiescent reset: equal counts if and only if no call failed, was unwaited, unresolved or timed backwards |
| WaitAccounting.CarriedWaitHidesLoss | runtime/bounded-gpu/opencl_queue_shim.c:110-160 | a production run with equal counts at quiescence in which the only call counted since the reset was never waited for |
| WaitTrace.EqualCountsAreSeen | docs/bounded-gpu-runtime-2.2.0-bss.1-device-validation.md:50-53 | between two idle moments of production without a reset the vendor saw every counted call enqueued, and the counters grow alike if and only if it saw exactly one wait per counted enqueue and no clock ran backwards |
| WaitTrace.EqualCountsSinceZeroing | docs/bounded-gpu-runtime-2.2.0-bss.1-device-validation.md:50-53 | from any zeroing of the dispatch counter, calls in flight or not, to any idle moment: the exact equation of equal counts with the vendor waits seen; after a reset that carried nothing over, one wait per counted enqueue and per call that was already waiting |
| WaitMaximum.QuiescentMaximum | experiments/opencl-queue-window/opencl_queue_shim.c:153-165 | at quiescence the maximum is the true maximum and the total the true sum of the recorded durations, spurious failures allowed |
| WaitMaximum.AlwaysSettling | experiments/opencl-queue-window/opencl_queue_shim.c:153-165 | at every moment: the maximum is 0 or recorded, covers every settled duration, and the total lacks only what is pending |
| WaitMaximum.MaximumNeverDecreases | experiments/opencl-queue-window/opencl_queue_shim.c:158-164 | between resets the maximum never decreases, from any moment of any run to any later one |
| WaitMaximum.GenuineFailureMakesProgress | runtime/bounded-gpu/opencl_queue_shim.c:101-107 | at any moment of a run a genuine swap failure ends the race or strictly shrinks duration - previous maximum |
| WaitMaximum.ProductionMaximum | runtime/bounded-gpu/opencl_queue_shim.c:97-108 | the same invariant over every production run |
| WaitDurations.AlwaysAccounted | experiments/opencl-queue-window/opencl_queue_shim.c:205-213 | at every moment of every run, resets included, the recorded durations and those about to be recorded are those between the two clock readings of its waits, each as often |
| WaitDurations.QuiescentDurations | experiments/opencl-queue-window/opencl_queue_shim.c:153-165 | at quiescence the maximum is the longest time between the clock readings of a wait and the total the sum over all waits of the run |
| WaitDurations.ProductionDurations | runtime/bounded-gpu/opencl_queue_shim.c:97-108 | the same for production |
| EventOwnership.EventsAreOwned | experiments/opencl-queue-window/opencl_queue_shim.c:191-220 | over every run: shim events are waited on once, then released once; caller events never released; live shim events at most the boundary calls in flight; none left at quiescence |
| EventOwnership.ProductionEventsAreOwned | runtime/bounded-gpu/opencl_queue_shim.c:125-152 | the same ownership over every production run |
| CallStatus.StatusesAreTruthful | experiments/opencl-queue-window/opencl_queue_shim.c:187-219 | over every run each return tells the first failure among the vendor calls made for it, success only when there was one and all succeeded, and CL_INVALID_OPERATION of its own only for an unresolved symbol |
| CallStatus.ProductionStatusesAreTruthful | runtime/bounded-gpu/opencl_queue_shim.c:116-151 | the same over every production run |
| ShimCalls.CommonRunsAreBoth | runtime/bounded-gpu/opencl_queue_shim.c:97-152 | a run of the code both shims share is a run of either step machine |
| ShimCalls.Calls.RaiseMaximum | runtime/bounded-gpu/opencl_queue_shim.c:101-107 | the load and compare-and-swap loop is a run of the machine and leaves the larger of the two values |
| ShimCalls.Calls.RecordWait | runtime/bounded-gpu/opencl_queue_shim.c:97-108 | counts the wait, adds the duration, raises the maximum |
| ShimCalls.Calls.Submit | runtime/bounded-gpu/opencl_queue_shim.c:125-135 | the vendor's enqueue with or without an event of the shim's own, and the early returns |
| ShimCalls.Calls.WaitAndRelease | runtime/bounded-gpu/opencl_queue_shim.c:137-151 | wait, record, release, and the status the caller sees |
| ShimCalls.Calls.ZeroCounters | runtime/bounded-gpu/opencl_queue_shim.c:154-160 | the five stores, each one step of a reset |
| QueueShim.QueueShim.ShouldWaitAfterDispatch | experiments/opencl-queue-window/opencl_queue_shim.c:113-142 | flag, counter and table decide as the machine does |
| QueueShim.QueueShim.EnqueueNDRangeKernel | experiments/opencl-queue-window/opencl_queue_shim.c:181-220 | the whole call is a run of the experimental machine and returns what the run returns |
| QueueShim.QueueShim.NativeReset | experiments/opencl-queue-window/opencl_queue_shim.c:242-262 | a run of the machine that zeroes the counters and clears the table, touching nothing else |
| QueueShim.QueueShim.SetInferenceEnabled | experiments/opencl-queue-window/opencl_queue_shim.c:273-285 | the exchange of the flag |
| BoundedShim.BoundedShim.EnqueueNDRangeKernel | runtime/bounded-gpu/opencl_queue_shim.c:110-152 | the whole call is a run of the production machine and returns what the run returns |
| BoundedShim.BoundedShim.NativeReset | runtime/bounded-gpu/opencl_queue_shim.c:218-224 | a run of the production machine that zeroes the counters |
| DispatchLoop.InferenceContext.Dispatch | patches/complete-runtime/0003-bounded-opencl-queue.patch:31-52 | the do-while loop produces the trace and status of the recursive specification |
| DispatchLoop.InferenceContext.DispatchUnpatched | patches/complete-runtime/0003-bounded-opencl-queue.patch:30-53 | the loop without the added lines |
| DispatchLoop.WindowZeroIsUnpatched | docs/complete-runtime-maven-roadmap.md:162-163 | window 0 gives the unpatched loop's commands and status, errors included |
| DispatchLoop.CommandsAreInPlace | patches/complete-runtime/0003-bounded-opencl-queue.patch:38-52 | in every trace each wait follows the flush that follows the marker that follows its batch, each marker is followed by its flush and wait, each batch but a failing last one by one flush before the next, and the status is that of the failing add or mark |
| DispatchLoop.UnpatchedCommandsAreInPlace | patches/complete-runtime/0003-bounded-opencl-queue.patch:30-53 | the same for the unpatched loop: batches and flushes only |
| DispatchLoop.KernelsInOrder | patches/complete-runtime/0003-bounded-opencl-queue.patch:34-37 | kernels reach the queue once each and in order, all of them unless an error is returned |
| DispatchLoop.WaitsExactly | patches/complete-runtime/0003-bounded-opencl-queue.patch:38-50 | an error-free run of B batches waits floor(B / W) times and leaves B mod W unwaited |
| DispatchLoop.NeverMoreThanWindow | patches/complete-runtime/0003-bounded-opencl-queue.patch:38-50 | at every moment of every run at most W batches are unwaited |
| DispatchLoop.UnconfirmedAreBounded | patches/complete-runtime/0003-bounded-opencl-queue.patch:38-50 | at every moment of every run the batches without a successful wait are at most W, plus W for each wait that failed since one succeeded |
| DispatchLoop.ResetCounterIsModulo | patches/complete-runtime/0003-bounded-opencl-queue.patch:38-49 | resetting the counter and counting modulo W decide alike at every step |
| DispatchLoop.RepeatedInferencesAreBounded | patches/complete-runtime/0003-bounded-opencl-queue.patch:33-50 | over repeated error-free inferences, at every moment, the batches without a successful wait stay bounded if and only if some wait of one inference succeeds, which takes at least W batches |
| DispatchLoop.BoundedWithoutFailedWaits | patches/complete-runtime/0003-bounded-opencl-queue.patch:33-50 | when all waits succeed: if and only if one inference has at least W batches |
| DispatchLoop.FailedWaitsAreUnbounded | patches/complete-runtime/0003-bounded-opencl-queue.patch:38-50 | when every wait fails nothing bounds them, however many batches an inference has |
| DispatchLoop.LoopRefinesWindow | patches/complete-runtime/0003-bounded-opencl-queue.patch:31-52 | every run of the loop is a run of the abstract bounded window the shims refine |
| DispatchLoop.BatchesAreBounded | patches/complete-runtime/0003-bounded-opencl-queue.patch:38-50 | so unfinished batches never exceed W, plus W for each wait that failed since one succeeded |
| DispatchLoop.FailedWaitsReachTheLimit | patches/complete-runtime/0003-bounded-opencl-queue.patch:38-50 | for every W and every k an inference and a moment of it after k failed waits at which exactly (1 + k) * W batches are unfinished |
| Names.AcceptsExactlySafeNames | scripts/deterministic_archive.py:14-24 | a name is accepted if and only if it is relative, has a component, never climbs and has no backslash; the result is its components joined |
| Names.ValidatesExactly | scripts/deterministic_archive.py:14-24 | in terms of the parts between slashes: refused if and only if absolute, or with a backslash, or with a part "..", or with no part but empty ones and "." |
| Names.KeptParts | scripts/deterministic_archive.py:15 | a path keeps all its parts but the empty ones and ".", in their order |
| Names.LessIsCodePointOrder | scripts/deterministic_archive.py:51 | one name comes before another if and only if it is a proper prefix or has the lower code point where they first differ |
| Names.NormalizationIsIdempotent | scripts/deterministic_archive.py:14-24 | validating a result again changes nothing; its components split and rejoin to it and none is empty, ".", ".." |
| Names.StaysBelow | scripts/deterministic_archive.py:14-24 | resolved under any root, an accepted name never leaves it and ends strictly below |
| Names.SortedIsUnique | scripts/deterministic_archive.py:51 | the ascending listing of a set of names is unique |
| Archive.ArchiveBytes | scripts/deterministic_archive.py:41-53 | for every insertion order the result is the same function of the dictionary; two names normalising to one, or one unsafe name, and nothing is written; what is written ascends by code point, with the fixed time and mode, and holds every entry once |
| Archive.ZipFile.WriteEntry | scripts/deterministic_archive.py:27-38 | appends one member with fixed time and mode, or refuses an unsafe name |
| Archive.WrittenFacts | scripts/deterministic_archive.py:49-53 | written names ascend strictly by code point, time and mode are fixed, no member is taken for a directory |
| Archive.WrittenInOrder | scripts/deterministic_archive.py:41-53 | the archive of any dictionary without NUL in its names: one file for each entry under its normalised name, ascending by code point, at 1980-01-01 with mode 0o100644 |
| Archive.NormalizedReaderTakes | scripts/verify_downloadable_runtime_bundles.py:20-31 | for every archive: taken if and only if the files' names ascend strictly by code point and each has the fixed time and mode; the dictionary is then just these files |
| Archive.ReaderTakes | scripts/build_downloadable_runtime_bundles.py:53-59 | for every archive: refused if and only if two files have one name |
| Archive.FilesAreKept | scripts/verify_downloadable_runtime_bundles.py:22 | the files are all members but those whose names end with a slash, in their order |
| Archive.ReadsBackExactly | scripts/verify_downloadable_runtime_bundles.py:20-31 | reading back yields exactly the normalised dictionary if and only if no name holds a NUL |
| Archive.NormalizedArchivesAreCanonical | scripts/verify_downloadable_runtime_bundles.py:20-31 | an archive of normal names that the normalised reader accepts is the very archive the writer makes of its contents |
| Archive.NormalizedSize | scripts/deterministic_archive.py:42-47 | normalising loses no entry |
| Splice.CountIsExact | scripts/patch_bounded_gpu_accelerator.py:37 | the non-overlapping count is the number of all occurrences when the pattern has no border |
| Splice.OccurrencesOutside | scripts/patch_bounded_gpu_accelerator.py:43-48 | a replacement neither makes nor removes occurrences beyond its own start, straddling ones included |
| Splice.BoundedPatchIsExact | scripts/patch_bounded_gpu_accelerator.py:35-50 | succeeds if and only if there is one old name and no new one; then same size, old name gone, new name once, only the region changed, reversible |
| Splice.ExperimentPatchIsExact | experiments/opencl-queue-window/patch_accelerator.py:21-30 | the same for the NUL-padded name |
| Splice.SetterPatchIsExact | experiments/opencl-queue-window/patch_runtime_kernel_batch.py:56-73 | succeeds if and only if there is one old setter; exactly four bytes change, no old setter is left, reversible, refused a second time |
| Checksums.VerifyChecksums | scripts/verify_downloadable_runtime_bundles.py:115-120 | the loop accepts exactly the texts that parse to the expected dictionary |
| Checksums.WrittenExactlyForAsciiNames | scripts/build_downloadable_runtime_bundles.py:46-50 | the file can be written if and only if every name is ASCII |
| Checksums.RoundTrip | scripts/build_downloadable_runtime_bundles.py:46-50 | the printed file parses back to the same dictionary if and only if every name is a single line |
| Checksums.WrittenChecksumsHold | scripts/verify_downloadable_runtime_bundles.py:108-120 | a directory passes with its own checksum file if and only if its names are single lines |
| Checksums.ChecksumsIdentifyAssets | scripts/verify_downloadable_runtime_bundles.py:108-120 | with a collision-free hash only the very same assets pass with that file |
| Checksums.WrittenLinesAscend | scripts/build_downloadable_runtime_bundles.py:40-50 | one line for each asset, ascending by the code points of the names: digest, two spaces, name |
| Checksums.ParsesAtFirstDoubleSpace | scripts/verify_downloadable_runtime_bundles.py:117 | a line splits at its first double space and is refused if and only if it has none |
| Checksums.SplitsAtBreaks | scripts/verify_downloadable_runtime_bundles.py:109 | a text splits after each ASCII line break, "\r\n" being one, and nowhere else |
| BundleBuilder.BuildCpuBundles | scripts/build_downloadable_runtime_bundles.py:170-203 | the loop over the ABIs writes the specified bundles and records, or fails |
| BundleBuilder.BuildGpuBundle | scripts/build_downloadable_runtime_bundles.py:206-252 | the collecting loop and the bundle, or the failure of the first wrong library |
| BundleBuilder.BuildRelease | scripts/build_downloadable_runtime_bundles.py:255-307 | the steps in their order produce the specified directory, or fail |
| ReleaseContents.BuiltReleaseHolds | scripts/build_downloadable_runtime_bundles.py:255-307 | for every well-formed contract: the directory has exactly these files; licence, notice and contract are the originals; the API AAR keeps every entry that is neither native nor the packaged contract; each bundle holds the frozen libraries of the source; the index has one record for each bundle, ascending by code point, with its size, digest, address and the digest of the manifest in it |
| ReleaseContents.RecordsAreOrdered | scripts/build_downloadable_runtime_bundles.py:299-302 | records of distinct files are sorted strictly by file name and none is lost |
| BundleVerifier.ApiAarVerifies | scripts/verify_downloadable_runtime_bundles.py:39-50 | a built API AAR is accepted if and only if no kept name normalises into a dropped one |
| BundleVerifier.RefusedNeighbour | scripts/build_downloadable_runtime_bundles.py:159-163 | beside every source whose API AAR is accepted there is one with an entry ./jni/x more, whose API AAR is built and refused |
| BundleVerifier.CpuBundleVerifies | scripts/verify_downloadable_runtime_bundles.py:53-81 | every CPU bundle the builder makes is accepted |
| BundleVerifier.GpuBundleVerifies | scripts/verify_downloadable_runtime_bundles.py:84-105 | every GPU bundle the builder makes is accepted |
| BundleVerifier.BuiltReleasesVerify | scripts/verify_downloadable_runtime_bundles.py:123-156 | for every well-formed contract and every source the builder accepts, the verifier accepts the built directory if and only if the names condition holds |
| BundleVerifier.AcceptedExactly | scripts/verify_downloadable_runtime_bundles.py:123-156 | for every directory: accepted if and only if it holds the contract, an index whose last records for each component give the size and digest of accepted components, and checksums of exactly its other files |
| BundleVerifier.ChecksumsFixTheDirectory | scripts/verify_downloadable_runtime_bundles.py:108-120 | with a collision-free hash two accepted directories with the same checksum file are equal |
| BundleVerifier.AlteredDirectoriesAreRefused | scripts/verify_downloadable_runtime_bundles.py:108-120 | so no accepted directory stays accepted when one asset is altered, added or taken away |
| BundleVerifier.ApiAarsAreExactly | scripts/verify_downloadable_runtime_bundles.py:39-50 | an API AAR is accepted if and only if it holds this contract and the frozen classes.jar, nothing below jni/ and no packaged contract |
| BundleVerifier.CpuBundlesAreExactly | scripts/verify_downloadable_runtime_bundles.py:53-81 | a CPU bundle is accepted if and only if it holds the frozen library and one canonical manifest of that component, ABI and library |
| BundleVerifier.GpuBundlesAreExactly | scripts/verify_downloadable_runtime_bundles.py:84-105 | a GPU bundle is accepted if and only if it holds the frozen libraries and one canonical manifest of that component, ABI, profile and core library |
| BundleVerifier.RefusedRelease | scripts/verify_downloadable_runtime_bundles.py:123-156 | beside every accepted release there is one with ./jni/x more in its source AAR that the builder completes and the verifier refuses |
| BundleVerifier.AcceptedLibrariesAreTheSource | scripts/verify_downloadable_runtime_bundles.py:53-105 | with a collision-free hash every library of any accepted directory is byte for byte the source AAR's entry |
| BundleVerifier.GpuManifestMayMisdescribe | scripts/verify_downloadable_runtime_bundles.py:84-105 | for every accepted GPU bundle and every value there is an accepted one with the same libraries whose manifest lists that value as its files |
| AarPackager.MergeOfficialAars | scripts/package_bounded_gpu_aar.py:59-89 | success, failure and result are the same for every order of the API entries |
| AarPackager.MergeSucceedsExactly | scripts/package_bounded_gpu_aar.py:59-89 | in terms of the two jars as read: the merge succeeds if and only if both can be read, their names are disjoint but for the API's META-INF/MANIFEST.MF, all of them can be archived together, and entries shared by the AARs are equal and not native |
| AarPackager.MergeConserves | scripts/package_bounded_gpu_aar.py:59-89 | on success every entry of both AARs is there, unchanged, and nothing else; the merged jar reads back as every class of both jars, once, unchanged under its normalised name, and the implementation's manifest; only the API's is dropped |
| AarPackager.AssembleEntries | scripts/package_bounded_gpu_aar.py:180-189 | additions, then removals, then the contract |
| AarContents.PackagingSucceedsExactly | scripts/package_bounded_gpu_aar.py:151-206 | a package is made if and only if contract and AARs can be read, the AARs merge, the compiled classes are the two capability classes and new, the supplement's native libraries are the x86 pair, and what results has the contract's native libraries, keeps classes.jar and can be archived |
| AarContents.PackageHolds | scripts/package_bounded_gpu_aar.py:159-257 | each entry of a package and where it comes from: rebuilt arm64 libraries, the supplement's pair, the implementation's or the API's entry, all classes in one jar, the contract; nothing the contract removes; and a manifest with the digests of the inputs and of every native library |
| AarVerifier.PackagesVerify | scripts/verify_bounded_gpu_aar.py:86-147 | for every input the packager accepts, the verifier accepts the package if and only if the matrix is bounded and the inputs carry the markers and classes under names that writing leaves in place |
| AarContents.VerifiedExactly | scripts/verify_bounded_gpu_aar.py:86-147 | for every AAR, manifest and contract: accepted if and only if the archive is strict, holds the contract, its native matrix and nothing else below jni/, no forbidden library, all required classes in a strict jar, the marked libraries with one redirected name, and the manifest gives all their digests |
| AarContents.ManifestsAdmitOneAar | scripts/verify_bounded_gpu_aar.py:136-139 | with a collision-free hash two AARs accepted with one manifest are equal, and so are their contracts |
| AarContents.StrictReaderTakes | scripts/verify_bounded_gpu_aar.py:25-49 | the strict reader takes an archive if and only if its files ascend by code point with fixed time and mode |
| AarVerifier.RefusedPackage | scripts/package_bounded_gpu_aar.py:75-82 | beside every accepted package there is one with ./jni/x more in the API AAR that the packager makes and the verifier refuses |
| AarVerifier.FrozenMatrixIsBounded | contracts/bounded-gpu-runtime-contract.json:15-34 | the released native matrix is bounded: the rebuilt arm64 libraries and no accelerator for another ABI |
| AarVerifier.PatchedAcceleratorsAreRedirected | scripts/verify_bounded_gpu_aar.py:118-120 | what the loader patch makes passes the accelerator check |

## Left out

- Weak memory: atomics interleave as single-location steps. Counters and the summed time are unbounded; wrap-around at 2^64 is not modelled.
- Out-of-order queues, and OpenCL calls other than enqueue, wait and release.
- Logging, JNI getters, symbol lookup and property parsing in the shims: a symbol is resolved or not, and the window is any natural number.
- The classes are single-thread runs of the step machines; interleavings are proved on the machines themselves. In `Finish` the device drains the queue before a successful wait returns, and a wait on a NULL event never succeeds (section 5.9 of OpenCL 1.2).
- KernelBound.KernelsAreBounded: for windows of 2 and more it speaks of queues that are tracked at every moment, because an evicted count starts again; `HandleLimit` says exactly when that loses the bound.
- DocumentedRule.RunsFollowTheRule: one thread and no clearing; with several threads the order of counting and of accepting differ, and the rule does not say which one it means.
- RepeatedInferences.BoundedExactlyWhenWindowsFill: resets come from thread 0 while every thread is idle, and every complete inference counts the same number of kernels of the queue.
- `AddToQueue`, `EnqueueEvent` and `Wait` of ML Drift are not part of this model: a `Plan` gives their results and `Honest` their contract.
- The pinned input hashes of the two binary patch scripts: the results hold for every input image.
- Archive.Ascii: markers and contract strings are taken as ASCII; other text encodings are not modelled.
- DEFLATE and ZIP layout, including limits on name lengths and names that cannot be encoded; SHA-256 internals; JSON text.
- Output names are direct children of the release directory; paths that leave it are not modelled.
- Temporary files of `write_archive`, existing directories, downloads and the copying of a supplied AAR.
- Archive.ArchiveBytes: the sorted listing is a specification function; Python's sorting algorithm is not modelled.
- `parse_patch_result`, `source_hashes` and `repository_commit`: their results are inputs. The page-alignment check needs readelf.
- Maven staging, licence collection, provenance, source locks and the Java capability class.
