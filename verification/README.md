# Verified model of the provider daemon

The daemon connects a computing provider to an inference service. This project models the logic
below its input and output: what the request queue, the connection, the limiters, the model
registry, the metrics and the model-name and manifest algorithms do, and what holds of them over
every run. Each file is one component.

| file | component |
|---|---|
| RequestHeap.dfy, RequestQueue.dfy | the priority queue of requests: a binary heap with back-pointers, admission limits, expiry sweep, shutdown drain |
| ReconnectProtocol.dfy, ReconnectRuns.dfy | the goroutines around the WebSocket connection as an interleaving state machine; some runs of it |
| ReconnectCover.dfy, ReconnectCloses.dfy, ReconnectReaders.dfy | when exactly the connection is left without a reader, closed by an old pump, or read by two |
| ConcurrencyLimiter.dfy | global and per-model semaphores and the threads that use them |
| TokenBucket.dfy | rate limiting with lazy refill and adaptive rates |
| ReconnectForced.dfy | which step closes which connection, and when a full send buffer forces a reconnect |
| HealthChecker.dfy, ModelRegistry.dfy | model health and its registry, reconciled with a configuration file |
| ModelLife.dfy | what events have made of a model since it was added: switch, health, state, whether it is served |
| CircuitBreaker.dfy, RetryPolicy.dfy, Supervisor.dfy | failure handling: breaker, retries, restarts with backoff |
| Common.dfy, Sorting.dfy | shared: optional values, text, sorting |
| InferenceMetrics.dfy, MetricsHistory.dfy | counters, latency percentiles, aggregation over time |
| CompositeHash.dfy | the text that a model's manifest hash is computed from |
| ModelNames.dfy | canonical model names, family and version |

Conventions. A region protected by a mutex is one method or one step. An object whose fields the
code updates is a class; each method states its whole new state through a pure function, and the
lemmas about runs and histories are about that function. Instants are integers or reals and come
in as parameters, as do random draws, the file system and the network. Go maps are iterated in any
order. In ModelRegistry every operation acts on each model's entries alone, so runs are stated for
one model's entry and hold for all.

Where the code departs from its own comments, the code is followed and the departure is stated as a
lemma: one successful probe heals a model whatever the configured number of successes
(`HealthChecker.RecoversAtIff`); a load-reducing adjustment can raise the rate
(`TokenBucket.AdjustsTheWrongWayIff`); "at least 1" instance can be none
(`ConcurrencyLimiter.GPULimitAtLeastOneIff`); an expired deadline is retried
(`RetryPolicy.PassedDeadlineIsRetriedIff`) and the maximum delay is not a maximum
(`RetryPolicy.CanExceedMaxIff`); a negative retry limit reports success without running anything
(`RetryPolicy.NilWithoutSuccessIff`); disabling and enabling an unhealthy model puts it back into
service (`ModelRegistry.UnhealthyIsServedIff`); normalising a name twice is not normalising it once
(`ModelNames.NormalFixesExactly`); a reconnect can be dropped
for good (`ReconnectCover.ReconnectCanBeDropped`), and two goroutines can read from one connection
(`ReconnectReaders.TwoCanReadFromOne`).

`dafny verify dfyconfig.toml` checks the whole project.

## Model

| member | source | states |
|---|---|---|
| `RequestHeap.RootIsFirst` | internal/computing/request_queue.go:95-102 | in a heap by (higher priority, then earlier enqueue time) the root has the highest priority of all, and of those with it the earliest enqueue time |
| `RequestHeap.UpStep` | internal/computing/request_queue.go:104-115 | one swap of sift-up keeps "a heap but for the moving slot" |
| `RequestHeap.SinkStep` | internal/computing/request_queue.go:95-108 | one swap of sift-down with the preferred child keeps "a heap but around the moving slot" |
| `RequestHeap.AfterSwapWithLast` | internal/computing/request_queue.go:104-108 | putting the last element into a removed slot disturbs the order around that slot only |
| `RequestHeap.Heap.Swap` | internal/computing/request_queue.go:104-108 | exchanges two slots and both back-pointers; every request still knows its slot |
| `RequestHeap.Heap.Append` | internal/computing/request_queue.go:110-115 | appends the request and points it at its new slot |
| `RequestHeap.Heap.RemoveLast` | internal/computing/request_queue.go:117-125 | gives up the last slot and marks its request with index -1 |
| `RequestHeap.Heap.Push` | internal/computing/request_queue.go:239 | container/heap push: the one request was added and the heap order holds; back-pointers hold again if and only if the request was not in the heap already |
| `RequestHeap.Heap.Remove` | internal/computing/request_queue.go:380 | container/heap remove: whatever the slot, exactly its request leaves, and order and back-pointers hold again |
| `RequestHeap.Heap.Pop` | internal/computing/request_queue.go:276 | container/heap pop: the request that leaves has the highest priority of all queued, and of those with it the earliest enqueue time |
| `RequestQueue.CountsAfterAdding` | internal/computing/request_queue.go:239-240 | incrementing one count keeps every model's count equal to the number of its queued requests |
| `RequestQueue.CountsAfterRemoving` | internal/computing/request_queue.go:381-384 | decrementing one count and deleting a zero entry keeps the counts equal to the numbers of queued requests, without zero entries |
| `RequestQueue.RequestQueue.constructor` | internal/computing/request_queue.go:140-152 | a new queue is empty, stopped and consistent |
| `RequestQueue.RequestQueue.Start` | internal/computing/request_queue.go:162-177 | makes the channels and launches the two goroutines unless the queue is running; keeps everything else |
| `RequestQueue.RequestQueue.Stop` | internal/computing/request_queue.go:180-188 | ends running and closes the stop channel, which is never closed already; no effect on a stopped queue |
| `RequestQueue.RequestQueue.Enqueue` | internal/computing/request_queue.go:202-245 | which of the four answers is given, by running flag, total size and the number of queued requests of the model; acceptance adds the request with its defaults filled in, refusal changes only the reject counter (not even that when stopped); the queue stays consistent if and only if no request is accepted that is queued already |
| `RequestQueue.RequestQueue.GiveUp` | internal/computing/request_queue.go:258-264 | cancelling a request's context leaves the queue as it is |
| `RequestQueue.RequestQueue.Dequeue` | internal/computing/request_queue.go:268-300 | nil exactly when empty; otherwise the request of highest priority, among equals the one enqueued first, leaves, with count, counters and wait times updated |
| `RequestQueue.RequestQueue.ProcessNext` | internal/computing/request_queue.go:311-330 | one turn of the processor: idle, or the request of highest priority, among equals the one enqueued first, is answered "cancelled" when its context is done, handed to the process function otherwise, and dropped without an answer when there is none |
| `RequestQueue.RequestQueue.CollectExpired` | internal/computing/request_queue.go:367-375 | the first pass finds exactly the requests past their deadline, each once |
| `RequestQueue.RequestQueue.ExpireAll` | internal/computing/request_queue.go:378-388 | removal by current index, while each removal moves other requests, removes exactly the collected requests, each answered once with a timeout |
| `RequestQueue.RequestQueue.RemoveTimedOut` | internal/computing/request_queue.go:363-389 | after the sweep the queue holds exactly the requests not past their deadline, all invariants hold, each expired request got exactly one timeout and the others no answer |
| `RequestQueue.RequestQueue.SweepAll` | internal/computing/request_queue.go:352-359 | any number of sweeps: each request that leaves got one timeout and was past its deadline at one of them |
| `RequestQueue.RequestQueue.DrainOne` | internal/computing/request_queue.go:335-344 | one turn of the drain after any sweeps: nil exactly when the queue is then empty, else the remaining request of highest priority, among equals the earliest, is answered |
| `RequestQueue.RequestQueue.DrainQueue` | internal/computing/request_queue.go:335-345 | the shutdown drain, with expiry sweeps between its steps: it ends, empties the queue and answers every queued request exactly once, with shutdown in the order of falling priority and, within one, rising enqueue time, or with a timeout if a sweep found it past its deadline |
| `RequestQueue.RequestQueue.AtMostOneAnswer` | internal/computing/request_queue.go:316-388 | over all critical sections in any order, a request enqueued once gets at most one answer from the queue, and none while queued |
| `RequestQueue.RequestQueue.OneSlotEach` | internal/computing/request_queue.go:104-125 | no request is in two slots, and each names its own |
| `RequestQueue.RequestQueue.QueuedHasSlot` | internal/computing/request_queue.go:378-380 | the index of a queued request is a valid slot that holds it |
| `ReconnectProtocol.EveryReachableStateIsSafe` | internal/computing/inference_client.go:489-653 | in every interleaving: at most one goroutine is inside the reconnect body, exactly while the guard is up; no done channel is closed twice and the current one is the only open one; an open done channel has at most one read and one write pump; forceReconnect closed only connections that were current in the round in which its caller read the generation |
| `ReconnectProtocol.StepKeepsInv` | internal/computing/inference_client.go:543-653 | every step of every goroutine, and every outside event, keeps the inductive invariant |
| `ReconnectProtocol.InvIsSafe` | internal/computing/inference_client.go:543-653 | the inductive invariant implies the safety properties |
| `ReconnectProtocol.StepHandsOver` | internal/computing/inference_client.go:613-630 | a step passes the right to launch or be the pumps of the current done channel to at most one goroutine; only the reconnect body replaces the channel |
| `ReconnectProtocol.StepTurnsGuard` | internal/computing/inference_client.go:545-556 | the guard goes up exactly when a goroutine enters the body and down exactly when it leaves |
| `ReconnectProtocol.StepKeepsChannels` | internal/computing/inference_client.go:561-564 | a step keeps exactly the current done channel open and every replaced one closed once |
| `ReconnectProtocol.StepKeepsHistory` | internal/computing/inference_client.go:561-569 | a step keeps the generation equal to the number of reconnects, and forced closes within the connections that were current |
| `ReconnectProtocol.StepKeepsTracker` | internal/computing/inference_client.go:640-653 | what forceReconnect is about to close was current in the round in which its caller read the generation |
| `ReconnectProtocol.StepKeepsPlace` | internal/computing/inference_client.go:489-499 | until Start has launched the read pump nobody else launches a pump or reconnects; done channels held by goroutines exist |
| `ReconnectProtocol.RoleMoves` | internal/computing/inference_client.go:613-617 | a role held by at most one goroutine stays so when a step hands it over |
| `ReconnectProtocol.NoOtherClaim` | internal/computing/inference_client.go:562-564 | when a reconnect replaces the done channel, no other goroutine can launch or be a pump of the new one |
| `ReconnectCover.CoverChangesExactly` | internal/computing/inference_client.go:543-556 | while the client is not stopped, a step leaves nobody reading from the current connection's channel, or on the way to, exactly when the last such goroutine finds the guard up (or is Start and cannot connect), and a step brings one back exactly when a registration fails |
| `ReconnectCover.CoveredIff` | internal/computing/inference_client.go:543-636 | over every run: somebody reads from the current connection's channel, or is on the way to, if and only if every such loss was followed by a failed registration |
| `ReconnectCover.LostForGoodIff` | internal/computing/inference_client.go:543-636 | exactly the states from which no continuation has a reader again |
| `ReconnectCover.LostAndReading` | internal/computing/inference_client.go:947-994 | in those states nobody reads, or will, but on closed channels; a state in which nobody keeps reading is one |
| `ReconnectCover.DroppedForGood` | internal/computing/inference_client.go:545-549 | nothing that can happen leads out of a state in which nobody keeps reading |
| `ReconnectCover.ReconnectCanBeDropped` | internal/computing/inference_client.go:545-549 | a run in which a reconnect finds the guard up and is dropped while nobody else can bring a reader; it ends, client not stopped and connection installed, with nobody reading for good |
| `ReconnectCloses.EveryReachableStateIsFresh` | internal/computing/inference_client.go:533-536 | in every reachable state the latest connection was installed under the current done channel, or is closed, or a reconnect has yet to install its own |
| `ReconnectCloses.DeferredCloseHits` | internal/computing/inference_client.go:947-954 | in every reachable state, the deferred close of a pump of a replaced channel hits a connection installed after that replacement if and only if the reconnect that replaced it is past its installation, told by where the goroutines stand; any other connection it hits is closed already |
| `ReconnectCloses.WriteCloseHits` | internal/computing/inference_client.go:998-1009 | a write pump closes a closed connection, one installed after its channel was replaced, or its own |
| `ReconnectCloses.OldPumpCanCloseFreshConnection` | internal/computing/inference_client.go:947-954 | a reachable state, client not stopped, in which a read pump of a replaced channel is about to close, and then closes, the open connection that a later reconnect installed |
| `ReconnectReaders.EveryReachableStateIsRooted` | internal/computing/inference_client.go:963-993 | in every reachable state no channel, open or closed, has two read pumps, and a pump reads from a connection installed under its channel or later |
| `ReconnectReaders.OneReaderButStrays` | internal/computing/inference_client.go:963-970 | in every reachable state, of the goroutines reading from one connection at most one is the pump of the channel it was installed under; the others read from a connection installed after their channel was replaced |
| `ReconnectReaders.GoesAstrayIff` | internal/computing/inference_client.go:964-970 | a read pump past its select goes astray with its next step if and only if its channel was replaced and the reconnect that replaced it is past its installation |
| `ReconnectReaders.OneReadPumpUntilRegistrationFails` | internal/computing/inference_client.go:543-636 | over every run without a failed registration there is one read pump at most |
| `ReconnectReaders.TwoCanReadFromOne` | internal/computing/inference_client.go:619-631 | a reachable state in which two goroutines read from the same open, current connection, one of them astray |
| `ReconnectForced.ForcedClosesIff` | internal/computing/inference_client.go:640-679 | over every run: a forced reconnect that runs now closes the current connection if there is one and no reconnect has replaced the channel since its tracker read the generation, and otherwise changes nothing |
| `ReconnectForced.ForcedReconnect` | internal/computing/inference_client.go:640-653 | in every reachable state the two steps of a forced reconnect close the current connection exactly if there is one and the round is still the tracker's; otherwise the client stays as it was |
| `ReconnectForced.ForcesIff` | internal/computing/inference_client.go:666-678 | over every run: a tracker goes on to force a reconnect if and only if its failure is at least the third counted since a message was last queued or a reconnect last reset the count |
| `ReconnectForced.FailuresSinceCleared` | internal/computing/inference_client.go:666-686 | over every run the failure counter tells whether one, and whether two, failures were counted since it was last reset |
| `ReconnectForced.RoundIsTold` | internal/computing/inference_client.go:657-667 | the generation a tracker holds is that of the instant it read it, and the current one exactly if no reconnect has replaced the channel since |
| `ReconnectForced.ClosesExactly` | internal/computing/inference_client.go:510-515 | which steps close which connection: the heartbeat, Stop, a reconnect, a failed registration and an ending read pump the current one; an ending write pump and a forced reconnect the one they have read |
| `ReconnectForced.FailedRead` | internal/computing/inference_client.go:947-991 | a read pump whose read failed closes the current connection, after launching a reconnect exactly if its channel is open |
| `ReconnectForced.FailedWrite` | internal/computing/inference_client.go:998-1009 | a write pump whose write failed closes the current connection and launches nothing |
| `ReconnectForced.PumpsHear` | internal/computing/inference_client.go:963-970 | in every reachable state a pump at its select can quit exactly when the client is stopped or its channel was replaced, which a read pump then must; quitting closes the current connection |
| `ReconnectForced.LaunchesBothPumps` | internal/computing/inference_client.go:613-617 | a goroutine that has connected launches one read and one write pump on the channel current when it looked; Start then ends, a reconnect goes on to register |
| `ReconnectForced.NobodyIsStuck` | internal/computing/inference_client.go:575-579 | every goroutine that has not ended can take a step; a reconnect gives up dialing exactly when the client is stopped, and then clears the guard |
| `ReconnectForced.CurrentIsHistory` | internal/computing/inference_client.go:533-569 | the history of connections by round holds exactly those that some state of the run had |
| `ConcurrencyLimiter.Semaphore.constructor` | internal/computing/concurrency_limiter.go:62-68 | a new semaphore has the given maximum and no slot in use |
| `ConcurrencyLimiter.Semaphore.TryAcquire` | internal/computing/concurrency_limiter.go:113-125 | takes a slot exactly when one is free, counts the rejection otherwise |
| `ConcurrencyLimiter.Semaphore.Release` | internal/computing/concurrency_limiter.go:128-139 | gives a slot back only if one is in use; hold times are summed over exactly those releases |
| `ConcurrencyLimiter.Semaphore.SetMax` | internal/computing/concurrency_limiter.go:142-148 | sets the maximum to the value given and nothing else, even below the slots in use |
| `ConcurrencyLimiter.RunKeepsInv` | internal/computing/concurrency_limiter.go:239-347 | over every run of requests, releases, registrations and limit changes: the global semaphore counts exactly the threads between taking and returning their global slot, live tokens included; no semaphore's use exceeds the largest maximum it had |
| `ConcurrencyLimiter.StepKeepsGlobal` | internal/computing/concurrency_limiter.go:249-346 | each step keeps the global count exact |
| `ConcurrencyLimiter.StepKeepsSems` | internal/computing/concurrency_limiter.go:113-148 | each step keeps every semaphore's use non-negative, equal to acquired less released, and within the largest maximum it had |
| `ConcurrencyLimiter.GlobalReleaseFindsSlot` | internal/computing/concurrency_limiter.go:128-137 | the guard of a release never fails on the global semaphore |
| `ConcurrencyLimiter.ModelReleaseFindsSlot` | internal/computing/concurrency_limiter.go:343-345 | the guard of a release never fails on a model's semaphore while its count is exact |
| `ConcurrencyLimiter.StepKeepsExact` | internal/computing/concurrency_limiter.go:253-347 | every step but replacing or removing the model's semaphore keeps its count equal to the tokens holding one of its slots |
| `ConcurrencyLimiter.ReplacingIsExactIffQuiet` | internal/computing/concurrency_limiter.go:218-236 | registering or unregistering a model keeps its count exact if and only if no thread holds or is about to take one of its slots |
| `ConcurrencyLimiter.RunKeepsExact` | internal/computing/concurrency_limiter.go:218-347 | over every run that replaces a model's semaphore only while the model is quiet, its count is exact |
| `ConcurrencyLimiter.TotalIsCount` | internal/computing/concurrency_limiter.go:281-285 | the uses of several models' semaphores add up to the threads holding their slots |
| `ConcurrencyLimiter.ModelsWithinGlobal` | internal/computing/concurrency_limiter.go:239-321 | the models' uses never add up to more than the global use |
| `ConcurrencyLimiter.LimitsHoldOverRuns` | internal/computing/concurrency_limiter.go:218-347 | over every run from the start, for all models whose semaphore is replaced only while they are quiet: exact counts, together within the global count, and that within the largest of the initial global maximum and those the run set |
| `ConcurrencyLimiter.UseIsWithinLargestSet` | internal/computing/concurrency_limiter.go:142-148 | over every run from the start: the global slots in use never exceed the largest of the initial global maximum and those the run set, nor a model's semaphore's the largest of the default and those the run gave that model |
| `ConcurrencyLimiter.LargestIs` | internal/computing/concurrency_limiter.go:466-480 | those largest values are reached by the start value or by one that was set, and exceeded by none |
| `ConcurrencyLimiter.MaxChangesExactly` | internal/computing/concurrency_limiter.go:218-227 | a semaphore's maximum is the one it was created with or given last, by registration, SetModelMax, the adjustment or SetGlobalMax; nothing else changes one |
| `ConcurrencyLimiter.PeakChangesExactly` | internal/computing/concurrency_limiter.go:142-148 | the peak that a semaphore's use is bounded by is the largest of the maximums it had |
| `ConcurrencyLimiter.GrantedIffFree` | internal/computing/concurrency_limiter.go:239-287 | a request gets its global slot and then its model's slot exactly when one is free at that step, and uses exactly one more |
| `ConcurrencyLimiter.WaitsWhileFull` | internal/computing/concurrency_limiter.go:71-125 | one that waits goes on exactly when a slot is free and gives up only while none is; what is not granted counts as timed out or as rejected |
| `ConcurrencyLimiter.NoThreadIsStuck` | internal/computing/concurrency_limiter.go:239-347 | every thread can take its next step except a caller holding a live token and one that has ended; calls can be made at any time |
| `ConcurrencyLimiter.GPULimitAtLeastOneIff` | internal/computing/concurrency_limiter.go:404-411 | "always allow at least 1" holds if and only if the default maximum is positive; the limit is at most twice that, above one it fits the available memory, and below twice the default one more instance would not fit |
| `CompositeHash.ComputeCompositeHash` | internal/models/download.go:347-364 | the empty string for no files, else the hash of the lines of some arrangement of the files by filename |
| `CompositeHash.SortSlice` | internal/models/download.go:352-356 | a sorted permutation of the files |
| `CompositeHash.ArrangementExists` | internal/models/download.go:354-356 | every list of files has an arrangement |
| `CompositeHash.AtMostIsLexicographic` | internal/models/download.go:354-356 | the order of filenames: one is a prefix of the other or has the smaller character where they differ first |
| `CompositeHash.ArrangementAscends` | internal/models/download.go:354-356 | in an arrangement filenames ascend in that order |
| `CompositeHash.TextAdds` | internal/models/download.go:359-361 | the text is one line "filename:hash" for each file, in order |
| `CompositeHash.SortedFilesAreUnique` | internal/models/download.go:354-356 | only one, if no filename occurs with two hashes |
| `CompositeHash.OrderIndependentIffConsistent` | internal/models/download.go:344-364 | the hashed text is independent of input order and of ties if and only if no filename occurs with two hashes |
| `CompositeHash.DecodeText` | internal/models/download.go:359-361 | the hashed text decodes to the list it was written from, with no newline in filenames and no colon or newline in hashes |
| `CompositeHash.TextIsInjective` | internal/models/download.go:359-361 | so two such lists with the same text are equal |
| `CompositeHash.SameTextIffSameFiles` | internal/models/download.go:347-364 | two manifests give the same text exactly when they hold the same files |
| `CompositeHash.CollidesIffColon` | internal/models/download.go:360 | of files without newlines, one shares its line with another file if and only if a colon occurs in its filename or hash |
| `CompositeHash.ColonInHashCollides` | internal/models/download.go:360 | two such files |
| `ModelNames.NormalizeModelName` | internal/setup/discovery.go:640-676 | the loop of passes computes the composed passes on every ASCII name |
| `ModelNames.InsertHyphenBetweenLettersAndDigits` | internal/setup/discovery.go:680-705 | a hyphen between each letter and the digit after it, nowhere else |
| `ModelNames.RemoveDoubleHyphens` | internal/setup/discovery.go:666-668 | repeated replacement ends and shrinks every run of hyphens to one |
| `ModelNames.SqueezeAfterReplace` | internal/setup/discovery.go:666-668 | one replacement of "--" does not change what squeezing every run gives |
| `ModelNames.ReplaceShrinks` | internal/setup/discovery.go:666-668 | a replacement shortens a name that has a double hyphen |
| `ModelNames.SqueezeFixes` | internal/setup/discovery.go:666-668 | squeezing leaves a name alone exactly when it has no double hyphen |
| `ModelNames.AliasIsIdentity` | internal/setup/discovery.go:20-30 | the alias table never changes a name that reaches it |
| `ModelNames.CanonIsClean` | internal/setup/discovery.go:656-675 | the passes from separator replacement on yield no separator, double hyphen, edge hyphen or letter directly before a digit |
| `ModelNames.CanonFixesExactlyClean` | internal/setup/discovery.go:656-675 | their fixed points are exactly the names of that form |
| `ModelNames.CanonIsIdempotent` | internal/setup/discovery.go:656-675 | doing them twice is doing them once |
| `ModelNames.CanonKeepsCore` | internal/setup/discovery.go:656-675 | they add and remove nothing but hyphens and separators |
| `ModelNames.StripIsSlice` | internal/setup/discovery.go:644-654 | stripping leaves a slice of the name, all of it exactly when it has no listed prefix or suffix |
| `ModelNames.StripsAffixes` | internal/setup/discovery.go:644-654 | a listed vendor prefix or none, a name without affixes, and a listed suffix or none: exactly the affixes are stripped |
| `ModelNames.SqueezeMerges` | internal/setup/discovery.go:666-668 | two hyphens in a row are worth one, wherever they stand |
| `ModelNames.SplitDigitsConcat` | internal/setup/discovery.go:680-705 | where two pieces meet there is a hyphen more exactly between a letter and a digit |
| `ModelNames.NormalIsClean` | internal/setup/discovery.go:640-676 | a normalised name is clean and has no upper case |
| `ModelNames.NormalFixesExactly` | internal/setup/discovery.go:640-676 | normalisation leaves alone exactly the clean lower-case names without a listed prefix or suffix |
| `ModelNames.NormalTwiceIff` | internal/setup/discovery.go:640-676 | so normalising again changes nothing if and only if the normalised name carries no listed prefix or suffix |
| `ModelNames.NormalIsNotIdempotent` | internal/setup/discovery.go:650-654 | a concrete name that normalising twice changes |
| `ModelNames.JoinParts` | internal/setup/discovery.go:838 | splitting at hyphens and joining is the identity |
| `ModelNames.SplitFamilyAndVersion` | internal/setup/discovery.go:837-876 | family and version are cut at the longest suffix of version components, with its leading "v" dropped, unless that is the whole name |
| `ModelNames.SplitIsLossless` | internal/setup/discovery.go:837-876 | the name is the family alone, or family, hyphen, optional "v-", version |
| `ModelNames.SplitsVersionOff` | internal/setup/discovery.go:837-876 | a version of numbers is split off a family whose last part is neither a number nor "v", and so is a "v" between them |
| `ModelNames.SplitIsUnique` | internal/setup/discovery.go:845-876 | cut, family and version are determined by the name |
| `TokenBucket.TokenBucket.Refill` | internal/computing/rate_limiter.go:108-117 | adds elapsed time times the current rate, capped at the burst size, and notes the instant |
| `TokenBucket.TokenBucket.Allow` | internal/computing/rate_limiter.go:73-87 | grants exactly when the refilled bucket holds a token, and takes it |
| `TokenBucket.TokenBucket.AllowN` | internal/computing/rate_limiter.go:90-105 | grants exactly when the refilled bucket holds the amount, and takes it |
| `TokenBucket.TokenBucket.SetRate` | internal/computing/rate_limiter.go:120-124 | replaces the rate without refilling first |
| `TokenBucket.TokenBucket.GetStats` | internal/computing/rate_limiter.go:127-132 | refills and reports |
| `TokenBucket.AllowModel` | internal/computing/rate_limiter.go:194-217 | the global bucket, then the model's; a refusal by the model's keeps the global token spent |
| `TokenBucket.RunKeepsValid` | internal/computing/rate_limiter.go:73-132 | over every run tokens stay between zero and the burst size |
| `TokenBucket.GrantedIsCovered` | internal/computing/rate_limiter.go:73-132 | tokens granted plus tokens left are at most the tokens there were plus the largest rate used in a refill times the time |
| `TokenBucket.WindowBound` | internal/computing/rate_limiter.go:73-132 | in any window at most burst plus largest rate used times length is granted |
| `TokenBucket.EveryWindowIsBounded` | internal/computing/rate_limiter.go:73-132 | the same for every window of every run |
| `TokenBucket.GrantsIff` | internal/computing/rate_limiter.go:90-117 | an amount is granted exactly if it is within the burst size and within what was left plus rate times time since |
| `TokenBucket.EmptiedGrantsFrom` | internal/computing/rate_limiter.go:90-117 | an emptied bucket grants n tokens exactly from n divided by the rate seconds on |
| `TokenBucket.AdjustRate` | internal/computing/rate_limiter.go:257-292 | high load lowers the rate by the configured share down to the minimum, low load raises it up to the maximum, else it stays |
| `TokenBucket.AdaptiveWindowBound` | internal/computing/rate_limiter.go:257-292 | under adaptive adjustment that largest rate is the configured maximum |
| `TokenBucket.AdaptiveRatesAreBounded` | internal/computing/rate_limiter.go:257-292 | rates set by adjustment from within the limits stay within both |
| `TokenBucket.AdjustsTheWrongWayIff` | internal/computing/rate_limiter.go:268-286 | high load raises the rate exactly when it is below the minimum, low load lowers it exactly when above the maximum |
| `TokenBucket.RefillTwice` | internal/computing/rate_limiter.go:108-117 | a refill on the way changes nothing that a later refill finds |
| `TokenBucket.StatsAreNeutral` | internal/computing/rate_limiter.go:73-132 | at a constant rate, inserting any number of intermediate refills changes no decision |
| `TokenBucket.StatsBeforeSetRateIff` | internal/computing/rate_limiter.go:119-132 | before a SetRate an intermediate refill changes nothing if and only if the rate stays the same, no time has passed, or the bucket is full by then at either rate |
| `TokenBucket.StatsMatterBeforeSetRate` | internal/computing/rate_limiter.go:119-132 | a case in which it changes a decision |
| `TokenBucket.AmountIsSafeIff` | internal/computing/rate_limiter.go:90-105 | the amounts that leave every bucket between empty and full are exactly the non-negative ones; AllowN does not check |
| `TokenBucket.FullBucketOverfills` | internal/computing/rate_limiter.go:90-105 | a full bucket is overfilled by every negative amount |
| `HealthChecker.ModelHealthChecker.RegisterModel` | internal/computing/model_health_checker.go:114-135 | endpoint and key are set (an empty key deletes it); a known model keeps its status but for the endpoint |
| `HealthChecker.ModelHealthChecker.UnregisterModel` | internal/computing/model_health_checker.go:138-146 | endpoint, key and status of that model go, nothing else |
| `HealthChecker.ModelHealthChecker.GroupByEndpoint` | internal/computing/model_health_checker.go:197-215 | the loop groups every registered model under its endpoint |
| `HealthChecker.EachModelInOneGroup` | internal/computing/model_health_checker.go:197-228 | one group for each endpoint in use, and each registered model once in exactly the group of its endpoint |
| `HealthChecker.AlwaysOwnKeyIff` | internal/computing/model_health_checker.go:204-213 | a model is probed with its own key in whatever order the map is iterated, if and only if all models of its endpoint have that key |
| `HealthChecker.ModelHealthChecker.ApplyProbeResult` | internal/computing/model_health_checker.go:250-310 | the new status as the transition on the old one (or on a new one), times included, and a callback exactly when the health changed |
| `HealthChecker.HealthIsClosedForm` | internal/computing/model_health_checker.go:250-310 | health, circuit, times and counters are a closed form of the probe history: unhealthy and open exactly at the threshold of trailing failures, healthy after a success, degraded below the threshold after some success, else unknown |
| `HealthChecker.HealthToldByProbes` | internal/computing/model_health_checker.go:266-304 | unhealthy exactly when the last threshold probes (at least one) all failed, healthy exactly when the last one succeeded, degraded exactly when fewer failed after some success |
| `HealthChecker.CountersToldByProbes` | internal/computing/model_health_checker.go:260-290 | successes, failures and the last error are those of the probes |
| `HealthChecker.OneSuccessHeals` | internal/computing/model_health_checker.go:279-304 | one success makes a model healthy whatever its history |
| `HealthChecker.RecoversAtIff` | internal/computing/model_health_checker.go:60-62 | the configured promise, that an unhealthy model is healthy again exactly after HealthyThreshold successes, is kept if and only if that threshold is at most one |
| `ModelRegistry.ModelRegistry.LoadConfig` | internal/computing/model_registry.go:170-304 | for every model at once, what registry and checker hold afterwards as a function of what they held and of the configuration; a new model is enabled, loading and unknown, a changed one gets the new configuration and keeps the rest, an unchanged one is untouched; the three callback sets are the two differences and the changed survivors; a missing, unreadable or malformed file changes nothing |
| `ModelRegistry.ModelRegistry.LoadOne` | internal/computing/model_registry.go:200-278 | one iteration of the first loop adds, changes or leaves one model and touches no other |
| `ModelRegistry.ModelRegistry.Remove` | internal/computing/model_registry.go:283-288 | one iteration of the second loop removes one model from registry and checker |
| `ModelRegistry.ModelRegistry.OnHealthStatusChange` | internal/computing/model_registry.go:367-435 | the model's health and state after a report, and what the two callbacks are told; a report about an unknown model is dropped |
| `ModelRegistry.ModelRegistry.GetAllModelHealthMap` | internal/computing/model_registry.go:118-129 | the health of exactly the enabled models |
| `ModelRegistry.ModelRegistry.EnableModel` | internal/computing/model_registry.go:542-556 | enabled again, state untouched; an error exactly for an unknown model |
| `ModelRegistry.ModelRegistry.DisableModel` | internal/computing/model_registry.go:559-575 | switched off and marked disabled; an error exactly for an unknown model |
| `ModelRegistry.ModelRegistry.GetModelEndpoint` | internal/computing/model_registry.go:491-511 | the endpoint exactly for known, enabled models not both reported and marked unhealthy |
| `ModelRegistry.ModelRegistry.GetReadyModels` | internal/computing/model_registry.go:466-478 | exactly the ready models, each once |
| `ModelRegistry.EveryRunAgrees` | internal/computing/model_registry.go:186-303 | after every sequence of loads, probes, reports and switches, late ones included, registry and checker hold what the last load said, and a registered model has a status with its endpoint |
| `ModelRegistry.ReloadIsIdle` | internal/computing/model_registry.go:200-258 | loading the same configuration again changes nothing |
| `ModelRegistry.SurvivorsKeep` | internal/computing/model_registry.go:203-240 | over every sequence of loads that name it, a model keeps state, health, switch, load time and its health record |
| `ModelRegistry.StateTells` | internal/computing/model_registry.go:367-391 | a model is in state disabled exactly when it was disabled and not reported unhealthy since |
| `ModelRegistry.UnhealthyIsServedIff` | internal/computing/model_registry.go:500-511 | a model last reported unhealthy is sent requests if and only if it is enabled and was disabled after that report |
| `ModelRegistry.UnhealthyIsServed` | internal/computing/model_registry.go:542-575 | a run that ends there |
| `ModelLife.EnabledIff` | internal/computing/model_registry.go:241-260 | over every run of loads, probes, reports and switches since a model was added: it is enabled exactly if it was not disabled, or enabled since |
| `ModelLife.HealthIsLastReport` | internal/computing/model_registry.go:367-391 | its health is the one reported last, unknown before any report |
| `ModelLife.StateIsClosedForm` | internal/computing/model_registry.go:367-391 | its state: disabled from a disable to the next report of bad health, else ready or unavailable as the last good or bad report left it, and loading before the first |
| `ModelLife.ServedIff` | internal/computing/model_registry.go:491-511 | it is sent requests exactly if it was not disabled, or enabled since, and, where the last report was bad, disabled after all bad reports |
| `ModelLife.ReadyIff` | internal/computing/model_registry.go:466-478 | it is listed as ready exactly if enabled and in state ready or last reported healthy or degraded |
| `ModelRegistry.RegistryMatchesIff` | internal/computing/model_registry.go:367-391 | in every run, in whatever order the callbacks (goroutines) run and whatever a removed model left behind: the registry's health is the checker's if and only if what the registry was told last (else unknown) is the newest change since the model was added (else what the checker held then) |
| `ModelRegistry.RegistryFollows` | internal/computing/model_registry.go:367-391 | so, when models are added only with nothing left of an earlier one and callbacks run in the order they were started, with none pending the registry shows the checker's health and the closed form of the probe history |
| `ModelRegistry.OvertakenReportSticks` | internal/computing/model_health_checker.go:306-309 | a run in which a later callback overtakes an earlier one and the registry stays wrong through any number of further successes |
| `ModelRegistry.CheckerFollows` | internal/computing/model_health_checker.go:114-146 | in every run the checker's record is what the probes since it was made say |
| `ModelRegistry.SystemIsRun` | internal/computing/model_registry.go:367-391 | in every run with callbacks in any order, registry and checker go through the run of the same events, so all that holds over those runs holds with callbacks too |
| `ModelRegistry.RegistryShowsTheHistoryIff` | internal/computing/model_registry.go:367-391 | in every run the registry shows the closed form of the probe history under exactly that condition |
| `ModelRegistry.QuietAddIff` | internal/computing/model_registry.go:241-267 | adding a model while nothing is pending leaves registry and checker in sync exactly when the checker has no record of it, or one that never left unknown |
| `ModelRegistry.LateProbeIsNeverReported` | internal/computing/model_health_checker.go:254-261 | a probe that ends after its model was removed leaves a healthy record; added again, the model shows unknown through any number of further successes |
| `CircuitBreaker.CircuitBreaker.Allow` | internal/computing/retry_policy.go:479-496 | refused only while open and within the timeout; a call after it makes the breaker half-open and starts the callback |
| `CircuitBreaker.CircuitBreaker.RecordSuccess` | internal/computing/retry_policy.go:499-511 | the state after a success, and the callback exactly when it changed |
| `CircuitBreaker.CircuitBreaker.RecordFailure` | internal/computing/retry_policy.go:514-529 | the state after a failure, and the callback exactly when it changed |
| `CircuitBreaker.CircuitBreaker.Reset` | internal/computing/retry_policy.go:552-558 | the state after a reset, and the callback exactly when it changed |
| `CircuitBreaker.RemembersFailures` | internal/computing/retry_policy.go:499-529 | in every state the failure count is the number of trailing failures of the history and lastFailure its latest failure; a closed breaker has seen fewer than the threshold |
| `CircuitBreaker.RemembersHalfOpening` | internal/computing/retry_policy.go:479-511 | a half-open breaker became so by a call more than the timeout after the latest failure; since then only successes, which it has counted |
| `CircuitBreaker.OpensExactly` | internal/computing/retry_policy.go:514-529 | closed opens exactly on the failure that completes the threshold with no success between |
| `CircuitBreaker.ClosesExactly` | internal/computing/retry_policy.go:499-511 | half-open closes exactly on reset or on the success that completes its threshold, and opens exactly on a failure |
| `CircuitBreaker.OpenRefuses` | internal/computing/retry_policy.go:479-496 | open allows nothing until more than the timeout after the latest recorded failure, and nothing but such a call or a reset ends it |
| `CircuitBreaker.ClosedAndHalfOpenAllow` | internal/computing/retry_policy.go:479-496 | closed and half-open allow every call and are left as they are by it |
| `CircuitBreaker.ResetCloses` | internal/computing/retry_policy.go:552-558 | after any history a reset closes the breaker and clears both counts |
| `CircuitBreaker.TrailingFailuresAre` | internal/computing/retry_policy.go:499-529 | the trailing failures counted are the failures with no success or reset after them |
| `CircuitBreaker.LatestFailureIs` | internal/computing/retry_policy.go:514-518 | the latest failure is one that has no failure after it |
| `RetryPolicy.IsRetryable` | internal/computing/retry_policy.go:176-215 | retried exactly if there is an error, no forbidding pattern occurs in it and an allowing one does or the outermost network error it wraps is transient |
| `RetryPolicy.PassedDeadlineIsRetriedIff` | internal/computing/retry_policy.go:198-208 | for every error that wraps a passed deadline, said not to be retried: it is retried if and only if no pattern forbids it, when every network error it wraps is transient; the check for deadlines is never reached |
| `RetryPolicy.RetryPolicy.ExecuteWithResult` | internal/computing/retry_policy.go:107-173 | how a call ends after how many calls of the operation, and every counter; counted successes never exceed counted retries, so the reported success rate stays within one |
| `RetryPolicy.NilWithoutSuccessIff` | internal/computing/retry_policy.go:115-172 | at most one call more than the retries; success is reported without one exactly when the limit is negative |
| `RetryPolicy.EndingIsUnique` | internal/computing/retry_policy.go:107-173 | the ending and the number of calls are determined by operation and context |
| `RetryPolicy.AllRetriesAreUsed` | internal/computing/retry_policy.go:115-172 | while every call fails with an error to retry and the context is never done, the limit plus one calls are made and the last error is given |
| `RetryPolicy.FirstSuccessEnds` | internal/computing/retry_policy.go:115-150 | after retried failures the first success within the limit ends the call without error |
| `RetryPolicy.FirstNetworkIs` | internal/computing/retry_policy.go:198-201 | the network error looked at is the outermost one wrapped |
| `RetryPolicy.ContainsIs` | internal/computing/retry_policy.go:184-195 | a pattern occurs exactly if the text is something, the pattern, something |
| `RetryPolicy.CalculateDelay` | internal/computing/retry_policy.go:218-241 | the capped exponential delay moved by the jitter, in whole nanoseconds, the first delay if that is negative; with sensible settings it never is, nor more than twice the maximum |
| `RetryPolicy.BaseMultiplies` | internal/computing/retry_policy.go:218-226 | before the jitter: the first delay is the initial one and each further one the one before times the multiplier, all up to the maximum |
| `RetryPolicy.DelayByDraw` | internal/computing/retry_policy.go:218-241 | with sensible settings the delay is within the jitter of the capped exponential delay, and not negative |
| `RetryPolicy.CanExceedMaxIff` | internal/computing/retry_policy.go:222-240 | some draw takes the delay past the maximum exactly when the capped delay plus its spread is more than a nanosecond past it |
| `Supervisor.Service.constructor` | internal/computing/supervisor.go:69-80 | a registered service starts healthy, with no restart and the initial backoff |
| `Supervisor.Service.CheckService` | internal/computing/supervisor.go:165-222 | whether a check restarts the service, and its state afterwards |
| `Supervisor.Remembers` | internal/computing/supervisor.go:184-219 | the restart count is the restarts of the history; the backoff is a closed form of the restarts since the last healthy check |
| `Supervisor.RestartsIff` | internal/computing/supervisor.go:184-219 | after every history a check restarts the service exactly when it is unhealthy, fewer restarts than the limit were made, if there is one, and since the last restart, if any, at least the backoff, a closed form of the history, has passed |
| `Supervisor.FirstFailureRestarts` | internal/computing/supervisor.go:184-219 | an unhealthy service that was never restarted is restarted at once |
| `Supervisor.LastRestartExists` | internal/computing/supervisor.go:206-219 | the instant noted is that of the last restart, and there is none exactly if there was no restart |
| `Supervisor.HealthIsLastCheck` | internal/computing/supervisor.go:170-196 | the health shown is what the last check found, with the instant of the last healthy one |
| `Supervisor.BackoffIsCappedDoublingIff` | internal/computing/supervisor.go:184-219 | the backoff is min(base x 2^k, max) if and only if the initial one is at most the maximum or k is positive |
| `Supervisor.RestartsAreLimited` | internal/computing/supervisor.go:198-203 | with a positive limit there are never more restarts than that since registration, healthy checks or not |
| `Supervisor.RestartsAreSpaced` | internal/computing/supervisor.go:206-219 | consecutive restarts are at least the capped doubled backoff apart, and without a healthy check between them k grows by one |
| `Sorting.InsertionSort` | internal/computing/inference_metrics.go:445-451 | sorts in place: a sorted permutation |
| `Sorting.ArrangedIsSorted` | internal/computing/inference_metrics.go:445-451 | every sequence has a sorted arrangement |
| `Sorting.ArrangementIsUnique` | internal/computing/inference_metrics.go:445-451 | where only equal elements are unordered there is one sorted arrangement |
| `InferenceMetrics.PercentileInRange` | internal/computing/inference_metrics.go:454-469 | a percentile of a sorted slice lies within its minimum and maximum |
| `InferenceMetrics.PercentileIsMonotone` | internal/computing/inference_metrics.go:454-469 | it grows with p |
| `InferenceMetrics.PercentileAround` | internal/computing/inference_metrics.go:461-468 | it lies between the two values next to its rank |
| `InferenceMetrics.PercentileAtRank` | internal/computing/inference_metrics.go:461-468 | at a whole rank it is the value of that rank |
| `InferenceMetrics.PercentileIs` | internal/computing/inference_metrics.go:454-469 | it lies as far between the k-th value and the next as p hundredths of the way through all of them say |
| `InferenceMetrics.PercentileEnds` | internal/computing/inference_metrics.go:454-469 | 0 gives the first value and 100 the last |
| `InferenceMetrics.StatsAreOrdered` | internal/computing/inference_metrics.go:217-238 | P50 <= P95 <= P99, and they and the average lie within the window's range |
| `InferenceMetrics.InferenceMetrics.UpdateLatencyStats` | internal/computing/inference_metrics.go:217-238 | the statistics are those of the window, sorted; none for an empty window |
| `InferenceMetrics.InferenceMetrics.RecordRequestStart` | internal/computing/inference_metrics.go:139-157 | one more start in the history that counters, streams and per-model metrics are functions of |
| `InferenceMetrics.InferenceMetrics.RecordRequestEnd` | internal/computing/inference_metrics.go:160-214 | one more end: counters, rates, per-model metrics and the window of exactly the last maxLatencySample latencies stay functions of the history |
| `InferenceMetrics.InferenceMetrics.RecordModelEnd` | internal/computing/inference_metrics.go:196-213 | a model that was never started is not counted; the average never divides by zero |
| `InferenceMetrics.InferenceMetrics.Reset` | internal/computing/inference_metrics.go:387-408 | starts an empty history |
| `InferenceMetrics.RecentMoves` | internal/computing/inference_metrics.go:179-183 | append and drop the first keeps exactly the last values |
| `InferenceMetrics.TallyIsConserved` | internal/computing/inference_metrics.go:139-173 | total plus the most by which ends were ever ahead of starts equals succeeded plus failed plus active |
| `InferenceMetrics.TallyCounts` | internal/computing/inference_metrics.go:139-173 | requests, successes, failures, tokens in and out, and streams are each counted by their own events |
| `InferenceMetrics.MaxExcessIsLargest` | internal/computing/inference_metrics.go:139-173 | the most by which ends were ahead of starts is reached at some point of the history and exceeded at none |
| `InferenceMetrics.RatesAre` | internal/computing/inference_metrics.go:187-191 | tokens in a second and requests in a minute, over the time since the start |
| `InferenceMetrics.CountersAddUpIff` | internal/computing/inference_metrics.go:139-173 | the counters add up exactly when ends were never ahead of starts |
| `InferenceMetrics.PerModelIsOwnTally` | internal/computing/inference_metrics.go:139-213 | a model's metrics are the tally, mean latency and token rate of its own events from its first start |
| `MetricsHistory.AggregateByResolution` | internal/computing/metrics_history.go:228-298 | the rows themselves up to the record interval; above it the direct group-by, one point for every key in use, ascending |
| `MetricsHistory.FillBuckets` | internal/computing/metrics_history.go:252-256 | the map holds for every key exactly the entries with that key, in order |
| `MetricsHistory.SortedKeys` | internal/computing/metrics_history.go:258-263 | the keys in use, ascending, each once |
| `MetricsHistory.Summary` | internal/computing/metrics_history.go:272-294 | a point with the bucket's time, greatest total and five averages |
| `MetricsHistory.KeysTellIntervalsApart` | internal/computing/metrics_history.go:253-255 | two entries share a bucket exactly when they are in the same interval |
| `MetricsHistory.EntryIsInItsInterval` | internal/computing/metrics_history.go:253-255 | an entry lies in the interval its point's time starts, up to the second the key drops |
| `MetricsHistory.PointsAscend` | internal/computing/metrics_history.go:258-288 | timestamps strictly increase |
| `MetricsHistory.EachEntryOnce` | internal/computing/metrics_history.go:252-266 | every entry is counted in exactly one point |
| `MetricsHistory.AveragesAddUp` | internal/computing/metrics_history.go:272-294 | averages weighted by bucket size add up to the column's total |
| `MetricsHistory.PointIsInRange` | internal/computing/metrics_history.go:272-294 | averages lie within their bucket; the request count is the bucket's greatest exactly when not all are negative |

## Left out

- Semaphore.Acquire's waiting: a waiting thread is a thread that takes its slot when one is free or gives up when none is; when it is woken, and the timer that wakes it, are not modelled (internal/computing/concurrency_limiter.go:71-110).
- Reconnect liveness does not hold; `CoveredIff` and `LostForGoodIff` say exactly when it is lost. Which connection a write pump writes to, messages, the draining of the send buffer and the reconnect delay are not modelled.
- The reconnect protocol and the limiter's threads are modelled on values, as steps of a state machine, because many goroutines interleave in them; the semaphores themselves are objects.
- RequestQueue.RequestQueue.DrainQueue: does not model a send that blocks because nobody takes the first answer from the channel; DrainTimeout is left out with it.
- RequestQueue.RequestQueue.ProcessNext: does not model what the process function does, nor the lag with which a deadline timer fires; a context is done at its deadline.
- RequestQueue.RequestQueue.Start: does not model a second Start before the first drain has ended.
- CompositeHash.ComputeCompositeHash: does not model SHA-256, which is a parameter, or bytes, which are characters here; the size of a file is not hashed by the code either.
- ModelNames.NormalizeModelName: does not model names outside ASCII, where lower-casing can change more.
- Matching of model names: scores and best match; branch-only code over normalised names.
- TokenBucket.AdaptiveWindowBound: reading the old rate, computing and setting the new one is one step here; the code does not hold the bucket's lock throughout.
- HealthChecker.ModelHealthChecker.ApplyProbeResult: does not model the network request; its outcome and the clock are parameters.
- ModelRegistry.ModelRegistry.LoadConfig: does not model that callbacks share the live record with the registry, nor a registry without a health checker, which the daemon never makes.
- RetryPolicy.CalculateDelay: does not model overflow of the conversion to 64 bits, which settings that are not sensible or a maximum above half the range can cause; the power is over reals.
- RetryPolicy.IsRetryable: does not model lower-casing outside ASCII; what an error wraps is its parameter.
- The other backoff strategies and the retryable operation (internal/computing/retry_policy.go:270-420): easy members beside the policy.
- Supervisor.Service.CheckService: does not model stopping and starting the service, a service removed meanwhile, ForceRestart, or the clock before year 1.
- InferenceMetrics.InferenceMetrics.RecordRequestEnd: does not model the request history buffer, connection states or GPU and system metrics.
- MetricsHistory.AggregateByResolution: does not model the database query; the rows are the parameter.
- Integers are unbounded: wrap-around of 64-bit counters and durations is not modelled. Floating-point numbers are reals, so rounding and NaN are not.
- The GPU cache (internal/computing/gpu_cache.go).
- WebSocket, HTTP, JSON, hardware probing, the database, the dashboard and the command line: input and output without hard state.
