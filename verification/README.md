# IPTV player: verified model

A Dafny model of the parts of the player whose guarantees only show over whole runs: the
reordering frame buffer and its monitor, the download worker with its segment queue and its
adaptive choice of variant, the HLS manifest parser, the frame extractor and the HTTP retry loop.
Code that works in place is modelled by classes and loops, each proved against a specification;
the guarantees are lemmas about those specifications.

`dafny verify dfyconfig.toml` checks everything.

## Layout

| File | Models |
|---|---|
| `PtsOrder.dfy`, `FrameHeap.dfy`, `FrameBuffer.dfy` | the wrap-aware comparator, the binary heap in an array, the frame buffer as a sequential object |
| `TickOrder.dfy` | the comparator on 33-bit counts of 90 kHz ticks, which is what a stream carries |
| `FrameDelivery.dfy` | whole runs of the buffer: order of delivery, conservation |
| `Roster.dfy`, `FrameMonitor.dfy` | counting threads by where they are; the buffer as a monitor with two condition variables |
| `ConcurrentQueue.dfy` | the segment queue: the class, and the monitor with stop tokens |
| `Abr.dfy` | throughput smoothing, ideal index, hysteresis, over any history |
| `Orchestrator.dfy`, `StreamEnd.dfy`, `WorkerRuns.dfy` | worker, consumer and owner as one step system; what becomes of the final list; runs that show what can happen |
| `WorkerInputs.dfy` | the worker told from what it is answered: its calls of selectVariant, its variant, why it ends |
| `DownloadWorker.dfy` | the worker's loops in place, proved to take steps of that system, each with its cause |
| `Machine.dfy`, `Wrappers.dfy` | machine integers, optional values and results |
| `Text.dfy`, `LineReader.dfy`, `Numbers.dfy`, `NumberTexts.dfy`, `AttributeScanner.dfy`, `Playlist.dfy`, `ManifestParser.dfy` | lines, numbers, attribute lists and the parser |
| `ManifestMeaning.dfy`, `ManifestText.dfy`, `ManifestRewrites.dfy` | what a manifest means, told from its lines alone; the same for whole texts; rewrites that keep the meaning |
| `ManifestRoundTrip.dfy`, `VariantRoundTrip.dfy`, `ChaosManifest.dfy` | printers and round trips |
| `MasterChoice.dfy` | the parser and the choice of variant together |
| `FrameExtractor.dfy` | packing three strided planes into one payload |
| `HttpDownload.dfy` | retries, delays, abort and the body that is returned |

## What the proofs found

- **The frame buffer's order has an exact range.** The comparator is right for two times less than
  a period apart exactly when they are less than `kWrapThreshold` apart, or exactly that far apart
  with no wrap in between (`PtsOrder.PairOrderExact`). One microsecond beyond, it has cycles
  (`PtsOrder.BeyondThresholdCycles`). On a stream, whose timestamps are 33-bit counts of 90 kHz ticks
  rounded to microseconds, that is: right when less than half the range of counts apart, wrong when
  more, and at exactly half it depends on the rounding (`TickOrder.TickOrderExact`).
- **A buffer of capacity 0 deadlocks** (`FrameMonitor.ZeroCapacityDeadlocks`); any other does not.
- **`ConcurrentQueue` keeps every wake-up exactly when all consumers share one stop token.** With
  two different tokens a consumer that has been woken for an item can find its own token fired and
  leave, with another consumer asleep beside the item
  (`ConcurrentQueue.NoWakeupLostIffTokenShared`). The comment on `pop`
  (`include/iptv/concurrency/concurrent_queue.hpp:50-53`) speaks of stop requests only, and for those
  it is right (`ConcurrentQueue.StoppedConsumersAreAwake`).
- **The worker ends on an end-of-list tag even when a switch cut the pass short**
  (`src/player/playback_orchestrator.cpp:97`), and a switch on the last segment still clears it.
  Take the throughput the network would show for each segment that the final list still wants: all of
  them are pushed exactly when no sample but the last makes the choice leave the variant, and the
  pass has also not switched, so that none of them is cleared, exactly when no sample at all does
  (`StreamEnd.FinalListGetsThroughIff`). On any final list, one fast first segment is enough for the
  consumer to get nothing (`WorkerRuns.FinalListCanBeLost`).
- **Segments cleared by a switch are lost for good**, because the next index has already moved past
  them (`Orchestrator.DeliveredIncreaseClearedStayLost`). When lists leave no gaps, what is delivered
  has one exactly when something was cleared between two deliveries
  (`Orchestrator.DeliveredGaplessIffNothingClearedBetween`), which does happen
  (`WorkerRuns.SwitchCanLeaveGap`).
- **Index 2^64 - 1 wraps the next index to 0**: pushed indices increase exactly when it is not
  followed by another push (`Orchestrator.PushedIncreaseIffNoWrap`), as it can be
  (`WorkerRuns.CounterCanWrap`).
- **The variant choice converges to one limit from every start exactly when no variant up to the
  ideal one needs the whole budget** (or the ideal index is 0). In exact arithmetic the smoothed
  throughput never reaches the sample from below, so a variant at exactly 0.8 of it is never taken
  (`Abr.LimitIsIdealIff`); rounding may let it.
- **The first retry delay may exceed `max_delay`**, which its documentation calls the maximum
  delay (`include/iptv/network/http_retry_policy.hpp:43-47`): every delay respects the ceiling
  exactly when the initial delay does (`HttpDownload.CeilingKeptExactlyWhen`).
- **A stop is prompt**: after the request the worker makes at most seven more moves, wherever it is
  (`Orchestrator.StopIsPrompt`).
- **`buildMasterManifest` is not clamped to its table**, as its header says it is
  (`tests/stress/player/chaos_manifest.hpp:10`): from count 9 on it reads past the end
  (`ChaosManifest.BuildMasterManifest`).

## Model

| member | source | states |
|---|---|---|
| PtsOrder.PairOrderExact | include/iptv/renderer/pts_frame_buffer.hpp:18-46 | for two true times less than a period apart, the comparator orders their reduced timestamps correctly if and only if they are less than the threshold apart, or exactly that far apart and not wrapped |
| PtsOrder.OrderExactOnWindow | include/iptv/renderer/pts_frame_buffer.hpp:18-46 | on timestamps whose times fit a half-period window, the comparator is exactly reverse order on (unwrapped time, push number) |
| PtsOrder.WindowIsStrictWeakOrder | include/iptv/renderer/pts_frame_buffer.hpp:18-46 | on such a window it is the strict weak order that the heap algorithms require |
| PtsOrder.WindowIsTotalOrder | include/iptv/renderer/pts_frame_buffer.hpp:18-46 | any two items with different push numbers are strictly ordered one way |
| PtsOrder.SpanOfThresholdMisorders | include/iptv/renderer/pts_frame_buffer.hpp:18-46 | the window bound is tight: every pair exactly the threshold apart across a wrap comes out in the wrong order |
| PtsOrder.BeyondThresholdCycles | include/iptv/renderer/pts_frame_buffer.hpp:18-46 | one microsecond more gives a cycle of three, so the comparator is no strict weak order |
| TickOrder.TickOrderExact | include/iptv/renderer/pts_frame_buffer.hpp:19-45 | for any two ticks less than 2^33 apart, reduced to 33 bits and turned into the nearest microseconds, the comparator is right when they are less than 2^32 apart and wrong when more; at exactly 2^32 it is right if and only if the two timestamps are or are not the threshold apart, without or with a wrap |
| TickOrder.TickWindowIsOrdered | include/iptv/renderer/pts_frame_buffer.hpp:18-46 | on any stretch of less than 2^32 ticks the comparator is the reverse order of ticks, then of push numbers, and a strict weak order |
| TickOrder.ThresholdIsHalfTheRange | include/iptv/renderer/pts_frame_buffer.hpp:19-23 | the threshold is 2^32 * 100 / 9 and the period 2^33 * 100 / 9, rounded down |
| TickOrder.MicrosIsNearest | src/demux/ts_demuxer.cpp:141-143 | the timestamp of a tick is the whole number of microseconds nearest to it |
| FrameHeap.RootIsEarliest | src/renderer/pts_frame_buffer.cpp:37-39 | under a strict weak order the root of a heap comes no later than any element |
| FrameHeap.PushKeepsHeap | src/renderer/pts_frame_buffer.cpp:17-18 | raising an appended element keeps exactly the elements, and the heap whenever the order is sound on them |
| FrameHeap.PopKeepsHeap | src/renderer/pts_frame_buffer.cpp:37-39 | popping loses exactly the root and leaves a heap |
| FrameHeap.PushHeap | src/renderer/pts_frame_buffer.cpp:17-18 | std::push_heap in place on an array: the result is the specification's raised sequence, the rest of the array untouched |
| FrameHeap.PopHeap | src/renderer/pts_frame_buffer.cpp:37-39 | std::pop_heap in place: the old root behind the popped sequence, the rest untouched |
| FrameBuffer.PtsFrameBuffer.constructor | src/renderer/pts_frame_buffer.cpp:7 | an empty buffer of the given capacity |
| FrameBuffer.PtsFrameBuffer.Push | src/renderer/pts_frame_buffer.cpp:9-23 | once it may proceed: false and no change after abort; otherwise the frame joins the bag with the next push number, which advances |
| FrameBuffer.PtsFrameBuffer.Pop | src/renderer/pts_frame_buffer.cpp:25-44 | once it may proceed: nothing and no change after abort; otherwise an item leaves that comes first among all queued, provided every content so far met the heap's requirement |
| FrameBuffer.PtsFrameBuffer.Abort | src/renderer/pts_frame_buffer.cpp:46-51 | sets the flag and nothing else |
| FrameBuffer.PushKeepsWellFormed | src/renderer/pts_frame_buffer.cpp:9-23 | push keeps the capacity bound and push numbers unique and below the next one |
| FrameBuffer.PopKeepsWellFormed | src/renderer/pts_frame_buffer.cpp:25-44 | so does pop, whose item is gone afterwards |
| FrameBuffer.WindowKeepsOrderly | src/renderer/pts_frame_buffer.cpp:9-23 | a push that leaves the queued times within one window keeps the heap's requirement met |
| FrameBuffer.PopIsEarliestOnWindow | src/renderer/pts_frame_buffer.cpp:25-44 | on a window everything left in the buffer comes strictly after the popped item in (time, push number) |
| FrameDelivery.RunWellFormed | src/renderer/pts_frame_buffer.cpp:9-51 | every state of every run is well formed |
| FrameDelivery.DeliveryIsEarliest | src/renderer/pts_frame_buffer.cpp:25-44 | over any run whose queued frames always span less than 2^32 ticks of the 90 kHz clock, however far the stream advances and its 33-bit count wraps, each delivery is the first of the queue, ties in push order |
| FrameDelivery.OutputOrderedIffNothingLate | src/renderer/pts_frame_buffer.cpp:9-44 | in such a run the whole output is in presentation order if and only if no frame arrives after one that should follow it has been delivered |
| FrameDelivery.NothingLostOrInvented | src/renderer/pts_frame_buffer.cpp:9-44 | in every run the frames that arrived are, as multisets, those delivered plus those queued |
| FrameMonitor.RunKeepsInv | src/renderer/pts_frame_buffer.cpp:9-51 | in every reachable state: a sleeping popper means no more frames than woken poppers and pushers still owing a notification, and the mirror image for pushers and free slots; nobody sleeps after abort |
| FrameMonitor.AsleepOnlyWithReason | src/renderer/pts_frame_buffer.cpp:9-51 | when nobody can move, sleeping poppers mean an empty buffer and sleeping pushers a full one |
| FrameMonitor.NeverAllStuck | src/renderer/pts_frame_buffer.cpp:9-51 | with capacity at least 1, pushers and poppers never sleep at once with nobody able to move |
| FrameMonitor.ZeroCapacityDeadlocks | src/renderer/pts_frame_buffer.cpp:9-44 | with capacity 0 there is a run that ends with a pusher and a popper asleep for good |
| FrameMonitor.MoversCanMove | src/renderer/pts_frame_buffer.cpp:9-44 | whenever a thread is awake inside push or pop, some such thread has a step to take |
| FrameMonitor.ComesToRest | src/renderer/pts_frame_buffer.cpp:9-44 | from every reachable state the calls already made come to rest by themselves, in at most three steps per thread inside |
| FrameMonitor.InternalRunsAreShort | src/renderer/pts_frame_buffer.cpp:9-44 | no schedule of those calls is longer than that |
| FrameMonitor.AbortIsFinal | src/renderer/pts_frame_buffer.cpp:46-51 | from abort on the contents never change and nobody is parked, whatever is called later |
| FrameMonitor.AbortReleasesEveryone | src/renderer/pts_frame_buffer.cpp:46-51 | after abort, when nobody can move, no thread is left inside |
| FrameMonitor.RunIsSequential | src/renderer/pts_frame_buffer.cpp:9-51 | every concurrent run is a run of the sequential buffer with the monitor's log, so the delivery theorems hold for concurrent callers; by ArrivalIsArgument the arrivals of that log are the arguments of the calls |
| FrameMonitor.ArrivalIsArgument | src/renderer/pts_frame_buffer.cpp:9-23 | in every run a frame that arrives is the argument of its thread's latest call of push, after any number of waits, and nothing else has arrived by that call |
| FrameMonitor.FailsExactlyAfterAbort | src/renderer/pts_frame_buffer.cpp:9-44 | a call of push or pop that gets to run fails if and only if abort has been called before |
| ConcurrentQueue.ConcurrentQueue.Push | include/iptv/concurrency/concurrent_queue.hpp:41-45 | the item joins at the back |
| ConcurrentQueue.ConcurrentQueue.Pop | include/iptv/concurrency/concurrent_queue.hpp:57-68 | after the wait: the front item, or nothing and no change when the token has fired |
| ConcurrentQueue.ConcurrentQueue.TryPop | include/iptv/concurrency/concurrent_queue.hpp:78-86 | the front item, or nothing when there is none |
| ConcurrentQueue.ConcurrentQueue.Clear | include/iptv/concurrency/concurrent_queue.hpp:107-111 | the queue is empty |
| ConcurrentQueue.RunKeepsInv | include/iptv/concurrency/concurrent_queue.hpp:41-86 | in every reachable state, for any tokens: a sleeping consumer means no more items than awake consumers on their way plus items given up by cancelled consumers; an announced stop leaves none of its waiters asleep |
| ConcurrentQueue.SharedTokenLosesNoWakeup | include/iptv/concurrency/concurrent_queue.hpp:41-68 | consumers that share one token: until the stop, a sleeping consumer means every queued item has an awake consumer coming for it |
| ConcurrentQueue.OnlyWaitersGiveUp | include/iptv/concurrency/concurrent_queue.hpp:57-68 | an item is given up only if the token of some consumer fired |
| ConcurrentQueue.StoppedConsumersAreAwake | include/iptv/concurrency/concurrent_queue.hpp:57-68 | once a stop is announced, no consumer with that token is asleep, then or ever after |
| ConcurrentQueue.DistinctTokensCanLoseWakeup | include/iptv/concurrency/concurrent_queue.hpp:47-68 | for any two consumers with different tokens, and any item of any type, there is a run that ends with the item queued, one of them asleep with its token unfired, and nobody awake |
| ConcurrentQueue.NoWakeupLostIffTokenShared | include/iptv/concurrency/concurrent_queue.hpp:41-68 | in every state of every run a consumer asleep on an unfired token means every item has an awake consumer coming for it, if and only if all consumers have the same token |
| ConcurrentQueue.FirstInFirstOut | include/iptv/concurrency/concurrent_queue.hpp:41-111 | in every state of every run, the items that left, in order, followed by the queue, are the arguments of the calls of push, in order |
| ConcurrentQueue.TakenAreReturned | include/iptv/concurrency/concurrent_queue.hpp:57-86 | in every run the items taken are, in order, those the calls returned; every call that came back empty-handed left the queue and what had gone from it unchanged; pop comes back empty-handed if and only if its token has fired |
| ConcurrentQueue.MoversCanMove | include/iptv/concurrency/concurrent_queue.hpp:57-68 | whenever a consumer is awake inside pop, some such consumer has a step to take |
| ConcurrentQueue.ComesToRest | include/iptv/concurrency/concurrent_queue.hpp:57-68 | from every reachable state the calls under way come to rest by themselves, in at most two steps per awake consumer, with no stop requested or announced in between |
| ConcurrentQueue.InternalRunsAreShort | include/iptv/concurrency/concurrent_queue.hpp:57-68 | no schedule of those calls is longer than that |
| ConcurrentQueue.SleepersAtRestMeanEmptyQueue | include/iptv/concurrency/concurrent_queue.hpp:41-68 | at rest, under one shared token that has not fired, a sleeping consumer means an empty queue |
| ConcurrentQueue.StopReleasesConsumers | include/iptv/concurrency/concurrent_queue.hpp:57-68 | at rest, whatever the tokens, no consumer whose stop has been announced is still inside pop |
| Abr.AbrManager.constructor | include/iptv/abr/abr_manager.hpp:18-79 | nothing smoothed yet, index 0, no upgrades counted |
| Abr.AbrManager.SelectVariant | src/abr/abr_manager.cpp:8-30 | an error and no change on an empty list; otherwise one step of the specification, and the variant at the current index, which lies in the list and needs at most 800,000 bit/s for each Mbit/s of smoothed throughput, or is the first; a first sample selects the greatest that fits at once |
| Abr.AbrManager.CalculateIdealVariantIndex | src/abr/abr_manager.cpp:52-64 | the scan with its early exit finds the ideal index: everything up to it fits in 800,000 bit/s for each Mbit/s, and on an ascending list nothing beyond it does |
| Abr.AbrManager.ApplyHysteresis | src/abr/abr_manager.cpp:69-85 | one hysteresis step |
| Abr.IdealIsGreatestFitting | src/abr/abr_manager.cpp:52-64 | on a list sorted by bandwidth the ideal index is the greatest that fits the budget |
| Abr.SelectionIsSafe | src/abr/abr_manager.cpp:8-30 | over any history with changing lists, after each call the current index is at most the ideal one and inside the list: the choice fits the budget or is the lowest |
| Abr.SelectionFitsBandwidth | src/abr/abr_manager.cpp:8-64 | the same in bits per second, with no reference to the budget: over any history the selected variant needs at most 800,000 bit/s for each Mbit/s smoothed, or is the first; the ideal index is the greatest that fits; the first positive sample selects it at once |
| Abr.CounterMeaning | src/abr/abr_manager.cpp:69-85 | between calls the counter is 0, 1 or 2, and at least that many calls just made were favourable in a row |
| Abr.UpgradeIffThirdFavourable | src/abr/abr_manager.cpp:69-85 | a call raises the index if and only if the two calls before it were favourable and left the index alone and its own ideal index exceeds it; it then jumps to the ideal index |
| Abr.UpgradesAreRare | src/abr/abr_manager.cpp:69-85 | any k consecutive calls contain at most k / 3 upgrades, rounded up |
| Abr.ErrorDecays | src/abr/abr_manager.cpp:44-47 | under a constant sample the smoothed throughput keeps its side, and its distance to the sample after n calls is exactly (1 - alpha)^n times the first |
| Abr.IdealSettles | src/abr/abr_manager.cpp:44-64 | once that distance is below the distance to the next bandwidth that would matter, the ideal index is the limit and stays |
| Abr.HysteresisSettles | src/abr/abr_manager.cpp:69-85 | under a constant ideal index the current index reaches it within three calls and stays |
| Abr.SelectionSettlesWhenClose | src/abr/abr_manager.cpp:8-85 | three calls later the selected index is the limit for good |
| Abr.SelectionConverges | src/abr/abr_manager.cpp:8-85 | from any state, for any list, once every sample is the same positive one, the selected index is the limit from a call on whose number is given: a quotient of first error, tolerance and alpha, plus a constant |
| Abr.LimitIsIdealIff | src/abr/abr_manager.cpp:44-64 | the limit is the ideal index for the sample from every start if and only if that index is 0 or no variant up to it needs exactly the whole budget |
| Orchestrator.RunHomogeneous | src/player/playback_orchestrator.cpp:130-156 | in every reachable state everything queued was fetched from the current variant since the latest switch |
| Orchestrator.DeliveredIsCurrent | src/player/playback_orchestrator.cpp:139-156 | whatever the interleaving, what the consumer receives is of the variant current at that moment, never of one switched away from |
| Orchestrator.BundlesAccountedFor | src/player/playback_orchestrator.cpp:109-156 | in every state the bundles pushed are, in order, those delivered or cleared followed by those queued |
| Orchestrator.RunIndicesAdvance | src/player/playback_orchestrator.cpp:111-129 | across reloads and switches each pushed index is at least the 64-bit successor of the one before, and the next index wanted is the successor of the last |
| Orchestrator.PushedIncreaseIffNoWrap | src/player/playback_orchestrator.cpp:116-127 | the indices pushed by one worker strictly increase, whatever playlists arrive, if and only if none but the last is 2^64 - 1 |
| Orchestrator.DeliveredIncreaseClearedStayLost | src/player/playback_orchestrator.cpp:116-152 | without index 2^64 - 1, what leaves the queue has strictly increasing indices: a cleared segment is never delivered later |
| Orchestrator.RunPassSoFar | src/player/playback_orchestrator.cpp:109-137 | at every point of a pass the bundles of the current list are, one by one, the downloads of the segments that are wanted among those visited |
| Orchestrator.StopIsPrompt | src/player/playback_orchestrator.cpp:27-33 | in every run, from a stop request until the join, the worker makes at most seven more moves, wherever it was and whatever the network answers |
| WorkerInputs.WorkerCallsAreHistory | src/player/playback_orchestrator.cpp:41-156 | in every run, restarts included, the calls of selectVariant told from the answers alone (0 for each master list, then the throughput of each segment queued) are a history of the AbrManager that ends in the worker's own state |
| WorkerInputs.CurrentIsSelected | src/player/playback_orchestrator.cpp:47-56 | in every state the worker is on, or about to switch to, the resolved URI of the variant of the last master list that the AbrManager selected last |
| WorkerInputs.EndsExactlyWhen | src/player/playback_orchestrator.cpp:41-137 | a worker is at its end if and only if since the last join an answer was refused, a stop was noticed or a final list was finished |
| WorkerInputs.EndsForAReason | src/player/playback_orchestrator.cpp:41-137 | the reason it gives is the refusal, the stop or the final list of its own last move |
| WorkerInputs.FinalListIsLast | src/player/playback_orchestrator.cpp:97-99 | once a list with the end tag has arrived the same worker asks for no other |
| StreamEnd.RunPassChoice | src/player/playback_orchestrator.cpp:109-156 | in every state the choice of variant is the fold of selectVariant over the samples of the pass, and a pass that is over either went to the end of its list or was left at the first sample whose choice has another URI |
| StreamEnd.SamplesAreAnswers | src/player/playback_orchestrator.cpp:120-129 | in every run the samples of a pass are, in order, the throughputs the network answered since the list arrived, apart from one not yet queued |
| StreamEnd.PassHasArrived | src/player/playback_orchestrator.cpp:85-97 | every pass is over the last list received, and starts from the next index, the variant and the ABR state of that moment |
| StreamEnd.SwitchMovesVariant | src/player/playback_orchestrator.cpp:145-156 | within a pass the current variant differs from the one at its start if and only if the worker has switched in that pass |
| StreamEnd.IntactIffDrainsFoundNothing | src/player/playback_orchestrator.cpp:150-152 | none of a list's bundles has been cleared if and only if every drain of its pass found the queue empty |
| StreamEnd.FinalListGetsThroughIff | src/player/playback_orchestrator.cpp:85-156 | when the worker ends with the stream, told from the throughputs the network answers for the segments still wanted, as received in the run and as it would for the others: all are pushed if and only if no sample but the last makes the choice leave the variant; the pass has moreover not switched if and only if no sample does; all are pushed and none cleared if and only if no sample does, or only the last does and the drain found nothing |
| WorkerRuns.FinalListCanBeLost | src/player/playback_orchestrator.cpp:85-156 | for every final list there is a run, with a first sample that makes the choice leave, that ends with the stream while the only bundle pushed has been cleared |
| WorkerRuns.TwoVariantsSwitchAtOnce | src/abr/abr_manager.cpp:15-18 | variants of 0.5 and 4 Mbit/s and a first segment at 10 Mbit/s are such a case |
| StreamEnd.OnlySwitchCutsShort | src/player/playback_orchestrator.cpp:109-137 | a pass that is over before the end of its list was left by a switch of that very pass |
| Orchestrator.GaplessListsLeaveNoGaps | src/player/playback_orchestrator.cpp:85-137 | if every list is a window of consecutive indices that starts at or before the next index wanted, pushed indices have no gap, across any switches |
| Orchestrator.DeliveredGaplessIffNothingClearedBetween | src/player/playback_orchestrator.cpp:85-156 | under such lists, successive deliveries have successive indices if and only if no bundle was cleared between two deliveries |
| WorkerRuns.SwitchCanLeaveGap | src/player/playback_orchestrator.cpp:145-156 | over any three consecutive segments there is a run, with lists that leave no gaps, that delivers the first and the third and clears the second |
| WorkerRuns.CounterCanWrap | src/player/playback_orchestrator.cpp:127 | for any list that starts with index 2^64 - 1 there is a run that pushes it and then another bundle, so that indices do not increase |
| DownloadWorker.DownloadWorker.constructor | src/player/playback_orchestrator.cpp:10-12 | a worker in the initial state of the step system |
| DownloadWorker.DownloadWorker.DownloadSegment | src/player/playback_orchestrator.cpp:120-127 | asks the network once and records its answer: a bundle, with its throughput and index, if and only if the segment was delivered |
| DownloadWorker.DownloadWorker.DownloadPlaylist | src/player/playback_orchestrator.cpp:88-93 | asks the network once and records its answer: the list received, or the end of the worker |
| DownloadWorker.DownloadWorker.Others | src/player/playback_orchestrator.cpp:27-33 | between two steps: a consumer takes a bundle if it wants one, and a stop is requested if and only if the owner asks or the worker's time is up |
| DownloadWorker.DownloadWorker.Start | src/player/playback_orchestrator.cpp:16-25 | from any state, with a worker anywhere in its code or none, and the ABR state kept: stops what is there and runs a new worker, the recorded run only growing by steps of the system; the queue then holds only bundles of the current variant, every bundle is accounted for, and indices increase unless the counter wrapped |
| DownloadWorker.DownloadWorker.Stop | src/player/playback_orchestrator.cpp:27-33 | from any state, with a worker anywhere in its code or none: requests, lets the worker come to its end, joins and clears, as further steps of the recorded run; no worker and an empty queue remain |
| DownloadWorker.DownloadWorker.DownloadLoop | src/player/playback_orchestrator.cpp:41-60 | master list, first variant, then the loop over lists: continues the recorded run until it ends stopped, refused or at the end of the stream |
| DownloadWorker.DownloadWorker.FetchMasterPlaylist | src/player/playback_orchestrator.cpp:65-80 | accepts the answer received if and only if it is a master list with variants; seeds the context with them and with the URI of the one the ABR manager chooses for sample 0 |
| DownloadWorker.DownloadWorker.ProcessVariantLoop | src/player/playback_orchestrator.cpp:85-101 | reloads the current variant's list until stopped, refused or at its end: the recorded run only grows, by steps of the system, each answer in it the network's and each stop with its cause |
| DownloadWorker.DownloadWorker.DownloadSegments | src/player/playback_orchestrator.cpp:109-137 | visits the segments of a list; false exactly when stopped or refused, otherwise the pass ended or a switch cut it short |
| DownloadWorker.DownloadWorker.FetchSegment | src/player/playback_orchestrator.cpp:120-130 | asks for one wanted segment: queued if and only if the network delivers it, with the next index advanced to its successor in 64 bits first; the answer, then the push, are added to the run |
| DownloadWorker.DownloadWorker.EvaluateAbrSwitch | src/player/playback_orchestrator.cpp:145-156 | asks for a variant; switched if and only if the current variant changed, and then the queue was drained before the change among the moves added to the run |
| Text.LinesOfUnlines | src/manifest/internal/line_reader.cpp:7-23 | splitting joined lines gives the lines back |
| Text.UnlinesOfLines | src/manifest/internal/line_reader.cpp:7-23 | joining split text gives the text back, up to a line feed at the end |
| Text.TrimCutsExactly | src/manifest/internal/line_reader.cpp:25-33 | trimming takes exactly the blanks, tabs and carriage returns behind and the blanks and tabs in front |
| Text.EntriesAreTheLines | src/manifest/internal/line_reader.cpp:7-23 | what the parser sees is the lines that are not blank, each once, in order, each with its own number |
| LineReader.LineReader.Next | src/manifest/internal/line_reader.cpp:7-23 | yields, with its number, the next line that is not empty after trimming, as an in-bounds view of the content, and nothing exactly when none is left |
| LineReader.LineReader.TrimView | src/manifest/internal/line_reader.cpp:25-33 | shrinks a view to its trimmed text, in place |
| LineReader.LinesAreOrderedViews | src/manifest/internal/line_reader.cpp:7-33 | iterating gives split on line feed, trimmed, numbered, empties dropped; the lines are in-bounds views in increasing position without overlap |
| Numbers.ParseOfDecimal | src/manifest/internal/playlist_tag_handlers.cpp:40-58 | reading what to_string wrote gives the number back, whatever text follows, and an error if it is too large |
| Numbers.DigitsAreRead | src/manifest/internal/playlist_tag_handlers.cpp:40-58 | any digits, leading zeros included, are read as their value whatever text follows, unless it is too large |
| Numbers.NoDigitNoNumber | src/manifest/internal/playlist_tag_handlers.cpp:40-58 | text without a digit in front is an error |
| NumberTexts.NumberIsRead | src/manifest/internal/playlist_tag_handlers.cpp:19-25 | digits, decimals and exponent with any sign, and any text that does not make the number longer, are read as the number denoted: whole digits plus decimals over a power of ten, times ten to the exponent; an error only when that number is out of range |
| NumberTexts.ReadableExactlyWhen | src/manifest/internal/playlist_tag_handlers.cpp:19-25 | text is read if and only if it starts with inf or nan or with such a number in range |
| NumberTexts.WordsAreRead | src/manifest/internal/playlist_tag_handlers.cpp:19-25 | the words inf and nan are read in any case, with or without a minus, whatever follows |
| NumberTexts.FixedPointIsRead | src/manifest/internal/playlist_tag_handlers.cpp:19-25 | digits, a point and digits are read as the first plus the second over ten to their number |
| NumberTexts.TimesTenIsPower | src/manifest/internal/playlist_tag_handlers.cpp:19-25 | the scaling by tens these results speak of is multiplication by, or division by, a power of ten |
| NumberTexts.OutOfRangeExactlyWhen | src/manifest/internal/playlist_tag_handlers.cpp:19-25 | a number is out of range if and only if no positive double is nearer than zero, or no finite double is nearer than 2^1024 |
| AttributeScanner.AttributeScanner.Next | src/manifest/playlist_attribute_scanner.cpp:5-19 | the next attribute of the specification; the cursor strictly grows until it is at the end |
| AttributeScanner.AttributeScanner.ReadKey | src/manifest/playlist_attribute_scanner.cpp:21-31 | the text up to the next '=', past which the cursor moves, or an empty key at the end |
| AttributeScanner.AttributeScanner.ReadValue | src/manifest/playlist_attribute_scanner.cpp:33-47 | the text up to the first comma outside quotes |
| AttributeScanner.AttributeScanner.SkipPastComma | src/manifest/playlist_attribute_scanner.cpp:57-61 | steps over one comma, if there is one |
| AttributeScanner.AttributeListRoundTrip | src/manifest/playlist_attribute_scanner.cpp:5-61 | printing any list of printable pairs, joined by commas, and scanning it gives the pairs back with quotes stripped (section 4.2 of RFC 8216) |
| AttributeScanner.ScanEndsExactlyWhen | src/manifest/playlist_attribute_scanner.cpp:5-31 | on any text the scan ends if and only if no '=' is left or one stands where a key should begin |
| AttributeScanner.NextAttributeExactly | src/manifest/playlist_attribute_scanner.cpp:5-61 | otherwise the next attribute is the text before the next '=' and the value up to the first comma with paired quotes before it |
| AttributeScanner.StripsOnePair | src/manifest/playlist_attribute_scanner.cpp:49-55 | one pair of quotes around a value goes, any other value stays |
| ManifestParser.Parser.CommitSegment | src/manifest/internal/playlist_line_parser.cpp:9-25 | a URI without a pending duration is an error that changes nothing; otherwise the segment with its 64-bit index is appended and the flags are reset |
| ManifestParser.Parser.CommitVariant | src/manifest/internal/playlist_line_parser.cpp:27-38 | the pending variant, completed by the URI, is appended and the builder emptied; an error if none is pending |
| ManifestParser.Parser.CommitUriLine | src/manifest/internal/playlist_line_parser.cpp:40-53 | a pending variant takes the URI before a segment does |
| ManifestParser.Parser.ApplyStreamInfAttributes | src/manifest/internal/playlist_state.cpp:57-71 | the loop over the scanner applies all attributes in order to the pending variant |
| ManifestParser.Parser.Handle | src/manifest/internal/playlist_tag_handlers.cpp:11-69 | what each of the six tags does to the builders and the playlist; an error changes nothing |
| ManifestParser.Parser.DispatchTag | src/manifest/internal/playlist_tag_handlers.cpp:72-90 | the first table entry whose prefix fits decides; a tag with none is ignored |
| ManifestParser.Parser.ParseLines | src/manifest/internal/playlist_line_parser.cpp:55-75 | the loop over the reader is the fold of the line step over what is unread, up to the first line rejected |
| ManifestParser.ParseManifest | src/manifest/playlist_m3u8_parser.cpp:77-98 | the whole parser in place computes the specification's parse |
| ManifestMeaning.ParseMeaning | src/manifest/internal/playlist_line_parser.cpp:9-75 | the one pass succeeds if and only if every line is accepted; segments and variants are then those the lines name and together as many as the URI lines |
| ManifestMeaning.PrefixMeaning | src/manifest/internal/playlist_line_parser.cpp:55-75 | after any number of accepted lines the builders and lists say what the lines say: duration from the latest duration tag, discontinuous exactly when such a tag stands since the previous segment, index from the media sequence number |
| ManifestMeaning.FirstRejectedIsReported | src/manifest/internal/playlist_line_parser.cpp:55-75 | the error is that of the first line rejected, with its number |
| ManifestMeaning.UrisAreSegmentsOrVariants | src/manifest/internal/playlist_line_parser.cpp:40-45 | every URI line names a segment or a variant, and not both |
| ManifestMeaning.IndicesCountUp | src/manifest/internal/playlist_line_parser.cpp:19 | if the media sequence number stands before the first segment, segment i has index number + i in 64 bits (section 4.3.3.2 of RFC 8216) |
| ManifestMeaning.SortedPermutation | src/manifest/playlist_m3u8_parser.cpp:61-71 | sorting gives a permutation in ascending bandwidth |
| ManifestMeaning.FinishedPlaylist | src/manifest/playlist_m3u8_parser.cpp:61-71 | every field of the finished playlist is what the lines say: target duration, sequence number, end flag, type, segments, and variants as a sorted permutation of those the lines name |
| ManifestMeaning.AttributesMeaning | src/manifest/internal/playlist_state.cpp:12-71 | after any attribute list each field is what the last usable attribute of its kind says, or unchanged; unusable and all other attributes, AVERAGE-BANDWIDTH among them, change nothing |
| ManifestMeaning.ResolutionIsRead | src/manifest/internal/playlist_state.cpp:12-71 | digits, an x and digits are read as a resolution whatever follows either number, unless one is too large |
| ManifestMeaning.NoResolution | src/manifest/internal/playlist_state.cpp:12-71 | text without an x is no resolution |
| ManifestRoundTrip.ValuedLinesSay | src/manifest/internal/playlist_tag_handlers.cpp:11-79 | a line that starts with one of the four tags with a value says what the text behind the tag is read as |
| ManifestRoundTrip.OtherLinesSay | src/manifest/internal/playlist_tag_handlers.cpp:60-90 | any other line is a URI, one of the two flags, or says nothing |
| ManifestText.ParseMeansItsLines | src/manifest/playlist_m3u8_parser.cpp:77-98 | text is accepted if and only if it has the header first and every further line is accepted; the playlist is then, field by field, what its lines say, with as many entries as URI lines |
| ManifestText.ManifestError | src/manifest/playlist_m3u8_parser.cpp:77-98 | the error of any text that is not accepted: empty, without header (with the number of its first line), or that of its first rejected line |
| ManifestText.SegmentUrisAreViews | src/manifest/internal/playlist_line_parser.cpp:16-22 | the segment URIs of a parsed manifest are in-bounds slices of its text, pairwise disjoint and in increasing position |
| ManifestRewrites.CrlfChangesNothing | src/manifest/internal/line_reader.cpp:25-33 | turning every LF into CRLF leaves the result identical, error line numbers included |
| ManifestRewrites.BomChangesNothing | src/manifest/playlist_m3u8_parser.cpp:35-40 | so does a byte order mark put before text that has none |
| ManifestRewrites.InertLineChangesNothing | src/manifest/internal/playlist_tag_handlers.cpp:83-90 | a blank line at any line boundary, or a '#' line without table entry after the header, leaves acceptance and the playlist unchanged |
| ManifestRewrites.RenumberedParse | src/manifest/playlist_m3u8_parser.cpp:46-53 | the number of the first line does not matter to a successful parse |
| ManifestRoundTrip.MediaRoundTrip | src/manifest/playlist_m3u8_parser.cpp:77-98 | for any list of printable segments (URIs without line feed, edge blanks or leading '#'; readable durations; with or without discontinuity), any target duration and sequence number, parsing the printed media playlist gives exactly those back |
| ManifestRoundTrip.MasterRoundTrip | src/manifest/playlist_m3u8_parser.cpp:61-98 | parsing a printed master playlist gives exactly the announced variants, in some order of ascending bandwidth, and nothing else |
| VariantRoundTrip.AnnouncedVariant | src/manifest/internal/playlist_state.cpp:12-71 | reading a variant's printed attributes, with or without a frame rate, gives the variant back |
| VariantRoundTrip.VariantsRoundTrip | src/manifest/playlist_m3u8_parser.cpp:61-98 | printing any variants by their values and parsing gives exactly them back, in some order of ascending bandwidth |
| VariantRoundTrip.AscendingOrderIsUnique | src/manifest/playlist_m3u8_parser.cpp:65-67 | variants of different bandwidths have one ascending order, so any sort gives it |
| MasterChoice.ParsedIdealIsGreatestFitting | src/abr/abr_manager.cpp:52-64 | for every accepted text and every budget the ideal index over the parsed variants is the greatest that fits |
| ChaosManifest.BuildMediaManifest | tests/stress/player/chaos_manifest.cpp:50-66 | the appending loop writes the printed form of its segments for every variant number and every count from -2 (none below 1); below that the 64-bit reservation is refused |
| ChaosManifest.MediaManifestRoundTrip | tests/stress/player/chaos_manifest.cpp:50-66 | parsing it gives a complete playlist of exactly n segments with the printed URIs, 4 seconds each and indices 0 to n - 1 |
| ChaosManifest.BuildMasterManifest | tests/stress/player/chaos_manifest.cpp:30-48 | the appending loop writes the printed form of the table's first variants for the counts 0 to 8; it reads past the table above that, and below it the reservation is refused |
| ChaosManifest.MasterManifestRoundTrip | tests/stress/player/chaos_manifest.cpp:12-48 | parsing it gives a master playlist of exactly those variants, in the table's order |
| FrameExtractor.PackedPixel | src/decoder/internal/ffmpeg_frame_extractor.cpp:49-56 | byte row * width + column of a packed plane is the source byte at row * stride + column from the plane's start, for strides of either sign |
| FrameExtractor.PackedShowsPixels | src/decoder/internal/ffmpeg_frame_extractor.cpp:49-56 | two planes of one size pack alike if and only if they show the same pixels |
| FrameExtractor.PlanesBackToBack | src/decoder/internal/ffmpeg_frame_extractor.cpp:117-126 | the payload has exactly the computed size, and a reader who uses the packed strides finds each plane's pixels back to back |
| FrameExtractor.PayloadShowsPicture | src/decoder/internal/ffmpeg_frame_extractor.cpp:95-136 | two frame images of one size give the same payload if and only if they show the same picture |
| FrameExtractor.PayloadsAgreeExactlyWhen | src/decoder/internal/ffmpeg_frame_extractor.cpp:95-136 | so for accepted frames in memory, whatever their strides, row direction and padding |
| FrameExtractor.PayloadSizeFits | src/decoder/internal/ffmpeg_frame_extractor.cpp:117-118 | the payload size and each sum on the way to it fit 64 bits for every picture an int can describe |
| FrameExtractor.RowFits | src/decoder/internal/ffmpeg_frame_extractor.cpp:50-54 | addressing a row of source or destination stays within 64 bits |
| FrameExtractor.CopyPlane | src/decoder/internal/ffmpeg_frame_extractor.cpp:49-56 | the row loop writes the packed plane at its offset and touches nothing else, with no operation leaving its 64-bit range |
| FrameExtractor.RequireReadablePlanes | src/decoder/internal/ffmpeg_frame_extractor.cpp:62-74 | reports the first plane that is absent or whose stride cannot hold a row |
| FrameExtractor.AcceptedExactlyWhen | src/decoder/internal/ffmpeg_frame_extractor.cpp:62-103 | a frame is accepted if and only if it is 4:2:0, has a picture area, and each plane is present with a stride at least its width in magnitude |
| FrameExtractor.RefusedExactlyWhen | src/decoder/internal/ffmpeg_frame_extractor.cpp:62-103 | which error: the format before the area, the area before the planes, and the first plane that is absent or too narrow decides |
| FrameExtractor.PackPlanes | src/decoder/internal/ffmpeg_frame_extractor.cpp:121-126 | the loop over planes fills a new payload with the packed planes; the final offset is the payload size |
| FrameExtractor.ExtractDecodedFrame | src/decoder/internal/ffmpeg_frame_extractor.cpp:95-136 | the error of the first check that fails; or the frame with its timing and geometry, in which a reader finds, at each plane's offset in width and height and with the packed strides, exactly the bytes that plane of the frame shows |
| FrameExtractor.PayloadShowsFrame | src/decoder/internal/ffmpeg_frame_extractor.cpp:111-136 | every byte of every plane of the frame, luma, blue and red, stands in the payload where the returned strides say |
| HttpDownload.HttpResponse.AppendToBody | include/iptv/network/http_response.hpp:74-81 | the bytes join the body at its end |
| HttpDownload.HttpResponse.Clear | include/iptv/network/http_response.hpp:86-90 | empty body, unknown status, zero metrics |
| HttpDownload.TransferContext.ConsumeAbortRequest | src/network/internal/transfer_callbacks.cpp:16-22 | reports a fired token and marks the transfer as aborted for good |
| HttpDownload.TransferContext.WriteBodyChunk | src/network/internal/transfer_callbacks.cpp:28-38 | takes the chunk into the body, or refuses it when the token has fired |
| HttpDownload.TransferContext.Perform | src/network/internal/transfer_callbacks.cpp:75-103 | over any sequence of callbacks the body grows by exactly the chunks before the token fired |
| HttpDownload.ApplyBackoffDelay | src/network/http_client.cpp:28-41 | no sleep without a strategy; otherwise one sleep of at most the current delay, which then advances |
| HttpDownload.Attempt | src/network/http_client.cpp:92-110 | one attempt: its own chunks as body, its times and size as metrics, its status, and whether it ends the download |
| HttpDownload.Download | src/network/http_client.cpp:74-116 | for every sequence of transfers and every 32-bit retry limit: terminates with the attempts, the last attempt's body, metrics and status, and sleeps within the delays; the counter never wraps |
| HttpDownload.AttemptsExactly | src/network/http_client.cpp:88-115 | there are n attempts if and only if all but the last could be retried and the last could not, or used up the limit: one more than the leading retryable failures, capped |
| HttpDownload.SucceedsExactlyWhen | src/network/http_client.cpp:91-115 | the download succeeds if and only if some attempt within the limit does and all before it are retryable |
| HttpDownload.SuccessExactlyWhen | src/network/http_client.cpp:97-101 | success is a completed transfer with a status from 200 to 299; a transfer that did not complete has no status |
| HttpDownload.RetryableExactlyWhen | src/network/internal/transfer_callbacks.cpp:120-125 | a retry follows a transfer that nobody aborted and that timed out, found no host or connection, or completed with status 429 or 500 to 599, and no other |
| HttpDownload.BodyExactly | src/network/internal/transfer_callbacks.cpp:28-38 | the body is the chunks before the first callback that finds the token fired, joined |
| HttpDownload.AbortIsLast | src/network/http_client.cpp:103-110 | no attempt follows one the caller aborted |
| HttpDownload.ExponentialDelay | src/network/http_client.cpp:38-40 | from the first retry on, delay k is the smaller of initial * 2^k and the ceiling |
| HttpDownload.CeilingKeptExactlyWhen | include/iptv/network/http_retry_policy.hpp:43-47 | every delay respects the ceiling if and only if the initial one does |
| HttpDownload.SleepsAddUp | src/network/http_client.cpp:28-41 | the time slept is at most the sum of the delays |
| HttpDownload.TotalDelayBound | src/network/http_client.cpp:28-41 | that sum is at most the initial delay plus, for each further retry, the ceiling, or the initial delay again if not exponential: then it is exactly n times the initial delay |

## Left out

- FrameBuffer.PtsFrameBuffer.Push: does not model the wrap of the 64-bit push counter, nor the growth of the vector (the array has the full capacity from the start).
- FrameBuffer.PtsFrameBuffer.Pop: promises a first item only while the comparator has been sound on every content so far; beyond a half-period window the standard heap algorithms promise nothing.
- FrameHeap.PushHeap: stands for the standard library's algorithm, written as sift-up; PopHeap likewise as sift-down.
- FrameMonitor.RunKeepsInv: takes the frame extraction, the abort flag and the queue update of one critical section as one step, which the mutex justifies.
- Abr.SelectionConverges: throughput and smoothing are exact real numbers; floating-point rounding is not modelled.
- ManifestMeaning.SortedPermutation: an insertion sort stands for std::sort; no result about the parser fixes the order of variants with equal bandwidth, except that ParseManifest is compared with this stand-in.
- LineReader.LineReader.Next: does not model the wrap of the 32-bit line counter.
- NumberTexts.NumberIsRead: a double is kept as the exact number its text denotes, with range errors where no finite double is nearest; rounding to the nearest double is not modelled.
- ChaosManifest.MasterManifestRoundTrip: is for the counts 1 to 8 that the tables cover; count 0 lists no variant.
- DownloadWorker.DownloadWorker.ProcessVariantLoop: a stop is requested at some horizon after the start, which may be any number of steps away; a run that is never stopped is covered up to every point of it by the step system.
- DownloadWorker.DownloadWorker.Start: one thread interleaved with one consumer and one owner; queue locking is the subject of `ConcurrentQueue`. Every start has the same master URL.
- DownloadWorker.DownloadWorker.Stop: the time a download under way takes to notice the token is not modelled; it answers, with a segment or without, as one step.
- FrameExtractor.ExtractDecodedFrame: a stride of -2^31 is excluded, because negating it has no defined behaviour; planes that pass the checks are taken to lie in memory, as the decoder promises.
- HttpDownload.Download: delays are unbounded numbers, so doubling one near 2^63 milliseconds is not modelled.
- HttpDownload.TransferContext.Perform: the transfer library is given as the sequence of callbacks it makes and the code it returns.
- `resolveUrl` is a parameter of the orchestrator: any function of base and relative URI.
- Frames without a timestamp: the buffer's order is about timestamps taken from 33-bit counts.
- FFmpeg decoders, resampler, demuxer and codec probing, whose work is done by foreign calls.
- libcurl set-up, TLS, low-speed limits and reserving the body from Content-Length.
- `size` and `empty` of the queue, playlist preallocation, error texts of the extractor, and the rendering and metrics code, which would add only easy members.
