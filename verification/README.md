# Verification of LLM Warden

LLM Warden is an asyncio control plane around GPU inference engines. This project models its hardest
code in Dafny and proves what that code promises, for every input, every run and every interleaving:

- **Admission and rate limiting** (`Admission`, `AdmissionProtocol`, `RateLimiter`): the per-engine slot
  protocol with hand-off, tombstoned waiters and shielded releases, and the purging sliding window.
- **Detached chat turns** (`TurnLocks`, `LiveTurns`, `TurnProtocol`, `LiveFrames`): the per-chat lock, the runner, its
  shielded persist task, aborts, and subscribers that replay and follow the frames.
- **Engine lifecycle** (`GpuOwnership`, `Supervisor`, `SupervisorProtocol`, `SupervisorLifecycle`, `RestartBudget`, `Watchdog`):
  loads, unloads, exit watchers, exclusive cards, and restarts under one shared budget.
- **Streams and bounded stores** (`ThinkTags`, `Repetition`, `Runaway`, `Sse`, `Normalizer`,
  `NormalizerInputs`, `NormalizerFacts`, `NormalizerCalls`, `GodMode`, `MediaStore`, `ContentLog`, `Collector`, `CollectorPass`): each keeps a small
  state that is proved equal to a plain function of the whole history.
- **Printers, parsers and arithmetic** (`Lines`, `Baseline`, `BaselineFacts`, `SharedDocs`, `Fit`): round
  trips, idempotence, and a solver that inverts its formula.

Objects that the program updates in place are classes whose methods are proved against functions on
values. Protocols are state machines whose steps are the stretches of code between two suspension
points; their theorems quantify over all runs. `Wrappers` holds the option type.

Some promises made by comments in the source do not hold of the code. For each of them there is a lemma
with a run or input that breaks the promise, and a lemma that says exactly when it holds:

| promise | where it stops | exact condition |
|---|---|---|
| an abort returns with the turn lock released (`app/chat2/routes_turn.py:626-629`) | `TurnProtocol.AbortCanReturnLocked`: a cancellation that lands while the runner waits for its persist task ends the runner first | `TurnProtocol.AbortReturnExact` |
| the wrapper's release cannot fire twice (`app/chat2/routes_turn.py:246-249`) | `TurnProtocol.FailedReplayBreaksExclusion`: a replay cancelled between its own release and its return releases a later turn's lock | `TurnProtocol.OneTurnPerChat` |
| a failed load gives its cards back (`app/runtime/supervisor.py:245-247`) | `SupervisorProtocol.CancelledLoadLeaks`: a cancellation is no `Exception` | `SupervisorProtocol.TablesStayConsistent` |
| eviction never touches young drafts (`app/chat2/gc.py:124-131`) | `CollectorPass.ShortRetentionEvictsDrafts`: the retention stage does not look at drafts | `CollectorPass.RetentionExact` |
| a refused restart is final (`app/runtime/watchdog.py:735-743`) | `Watchdog.LateRefusalIsUndone`: the exit callback runs between the refused request and its write | `Watchdog.RefusalIsFinal`, over every run that follows |
| a tool call is emitted complete (`app/chat2/events.py:59-71`) | `NormalizerFacts.LateArgumentsAreMissed`: pieces may follow the finish reason | `NormalizerFacts.CompleteExactly`: nothing late follows the event |
| the solver is the exact inverse of the reserve (`app/models/fit.py:194-198`) | `Fit.MissingWindowMisleads`: every shape with sliding layers and no window | `Fit.LineExact`, `Fit.SolverTrusted`: the window is not missing |
| the preflight never raises (`app/models/load_preflight.py:108-110`) | a configuration that is no object, a field that is no number, a negative head or layer count | `Fit.NeverRaisesExact` |

The shape that misleads the solver reaches the function only: the fit preview sets the number of sliding
layers to zero when the window is missing (`app/models/routes_api.py:533-536`), and the preflight passes none.

One promise is kept, but not by what its comment names. A displaced live entry is a finished turn
(`app/chat2/live.py:82-83`) not because the lock is held: the lock is released before the old runner's last
frames (`TurnProtocol.LockAloneLetsUnfinishedBeDisplaced`). What keeps it is the event loop, which queues
that runner's wake-up right behind the release and runs it to its finish without suspending, while a new
turn first waits for the database. `TurnProtocol.OrderKeepsDisplacedFinished` proves that this order is
exactly what is needed.

`app/runtime/watchdog.py:571-572` says that `update_status` clears the prior status by design; it does so for
every status except `failed` (`app/db/repos/models.py:219-258`), and the model follows the code.

## Model

| member | source | states |
|---|---|---|
| Admission.DefaultMaxInflight | app/proxy/scheduler.py:78-91 | the default ceiling is positive whatever the environment says |
| Admission.PriorityScheduler.Enter | app/proxy/scheduler.py:318-336 | a request takes a slot on the fast path or joins its engine's heap with the next ticket; the whole bookkeeping afterwards is the one the specification gives |
| Admission.PriorityScheduler.Release | app/proxy/scheduler.py:435-468 | a release pops tombstones, then sets exactly the waiter at the head, or frees the slot and drops empty bookkeeping; no other waiter is touched |
| Admission.PriorityScheduler.Tombstone | app/proxy/scheduler.py:401-409 | a waiter cancelled before hand-off stays in the heap as a tombstone |
| Admission.InsertFacts | app/proxy/scheduler.py:203-225 | the heap stays in (-priority, ticket) order and gains exactly the new entry |
| AdmissionProtocol.InvStep | app/proxy/scheduler.py:306-433 | every step of every interleaving keeps the accounting: slots, heaps and waiters agree |
| AdmissionProtocol.SlotsConserved | app/proxy/scheduler.py:306-468 | in every reachable state the in-flight count equals holders, handed-off waiters and pending releases together and stays within the ceiling, no release underflows, nobody waits beside spare capacity, and nothing is left when all requests have ended |
| AdmissionProtocol.NoCapacityStrandsBookkeeping | app/proxy/scheduler.py:269-291 | with a ceiling below one a cancelled request leaves its tombstone for good, so the ceiling must be positive |
| AdmissionProtocol.HandOffServesTheFirst | app/proxy/scheduler.py:450-459 | a hand-off sets exactly one waiter of the engine: every other unserved one has a lower priority, or the same and a later ticket |
| AdmissionProtocol.EnterStandsByPriority | app/proxy/scheduler.py:306-336 | a request that has to wait takes the next ticket and its priority cut to 0..9, and stands ahead of exactly the entries of a lower priority |
| AdmissionProtocol.CancelledWaiterLeaves | app/proxy/scheduler.py:385-410 | a waiter cancelled before its hand-off ends without a slot and its entry is a tombstone; one cancelled after it owes exactly one release |
| AdmissionProtocol.ServedWaiterHolds | app/proxy/scheduler.py:361-433 | a waiter that was handed a slot and not cancelled holds it next and owes its release when it ends |
| AdmissionProtocol.FastPathOvertakesNobody | app/proxy/scheduler.py:323-329 | while anybody waits for an engine its fast path is closed |
| AdmissionProtocol.RankStep | app/proxy/scheduler.py:435-459 | no step moves a waiter back unless a higher priority arrives, and each release of its engine moves it one place on |
| AdmissionProtocol.BoundedWait | app/proxy/scheduler.py:435-459 | over every run: a waiter with k unserved waiters of higher priority, or the same and an earlier ticket, is handed a slot within k + 1 releases of its engine if nothing higher arrives |
| AdmissionProtocol.RankIsWaitersAhead | app/proxy/scheduler.py:203-225 | the place of a waiter in the heap is the number of unserved waiters of higher priority, or the same and an earlier ticket |
| RateLimiter.TokenRateLimiter.CheckAndCharge | app/proxy/scheduler.py:159-195 | the purging limiter accepts exactly what an oracle that never forgets accepts, and records the same admissions |
| RateLimiter.AdmittedRateBounded | app/proxy/scheduler.py:181-195 | over every nondecreasing run of calls, the charge admitted in any closed interval as long as the window is within window times rate |
| RateLimiter.CallDecided | app/proxy/scheduler.py:159-195 | after any run of calls: without a positive rate a call passes and leaves no trace; otherwise one for n tokens, at least one, passes exactly if the window's charge and n stay within window times rate, and then adds n to the window |
| RateLimiter.BudgetIsProduct | app/proxy/scheduler.py:182 | the budget used in the bound is the product the code computes |
| TurnLocks.TurnLocks.TryAcquire | app/chat2/locks.py:10-14 | the lock set moves as a post of TurnProtocol moves it, and is granted exactly when that step is possible |
| TurnLocks.TurnLocks.Release | app/chat2/locks.py:16-17 | the lock set moves as every releasing step of TurnProtocol moves it, held or not before |
| LiveTurns.LiveTurns.Start | app/chat2/live.py:79-87 | the registry moves as a spawn of TurnProtocol moves it, and the new turn is in the first state of LiveFrames |
| LiveTurns.LiveTurns.Append | app/chat2/live.py:92-96 | an uninterrupted append is the two steps of LiveFrames, the frame and then its notice |
| LiveTurns.LiveTurns.Finish | app/chat2/live.py:98-103 | an uninterrupted finish is the two steps of LiveFrames, the mark and then its notice |
| LiveTurns.LiveTurns.Reap | app/chat2/live.py:108-111 | the registry moves as the reaper's step of TurnProtocol moves it |
| LiveTurns.LiveTurn.NotifyAll | app/chat2/live.py:95-103 | waking the waiters one by one is the notice step of LiveFrames |
| LiveTurns.LiveTurn.Resume | app/chat2/live.py:122-131 | each stretch of the generator is the subscriber's step of LiveFrames |
| TurnProtocol.BooksStep | app/chat2/routes_turn.py:457-617 | how often a turn's lock was released is determined by how far the turn has come |
| TurnProtocol.InvStep | app/chat2/routes_turn.py:238-250 | one step keeps the lock set exact if and only if it is not a second release of a lock in use |
| TurnProtocol.OneTurnPerChat | app/chat2/routes_turn.py:238-250 | over every run: the lock set tells exactly which chats have a turn between acquire and release if and only if no failed replay released somebody else's lock; then two turns of one chat are never in flight together |
| TurnProtocol.ReleasedOnce | app/chat2/routes_turn.py:562-617 | over every run each acquire has one release, a failed replay two; a runner that started is released only after its persist task ended; with all turns settled no lock is left |
| TurnProtocol.AbortReturnExact | app/chat2/routes_turn.py:620-650 | when an abort returns its turn is done, and its lock is still owed if and only if a cancellation cut the wait for the persist task short and that task's callback has not run |
| TurnProtocol.CutHistory | app/chat2/routes_turn.py:586-590 | the wait was cut short exactly when some step of the run landed a cancellation in it |
| TurnProtocol.AbortedExactly | app/chat2/routes_turn.py:536-547 | over every run: a turn is recorded as aborted exactly when some step landed a cancellation on it while it was streaming |
| TurnProtocol.AbortEnds | app/chat2/routes_turn.py:620-650 | from every reachable state in which an abort waits, an explicit run of that turn's own steps, the end of the stream not among them, lets it return |
| TurnProtocol.OwnerCanBeAborted | app/chat2/routes_turn.py:633-649 | a turn holding its lock behind an unfinished runner is always reachable by an abort, and one whose runner never ran is freed by it |
| TurnProtocol.DisplacedHasRecorded | app/chat2/live.py:79-87 | a displaced entry has released its lock: it is done, or its persist task is and it is on its last frames |
| TurnProtocol.ReapedIsGone | app/chat2/live.py:105-111 | the reaper removes exactly the entries of its own turn |
| TurnProtocol.AbortCanReturnLocked | app/chat2/routes_turn.py:620-650 | a run in which an abort returns while the chat is still locked |
| TurnProtocol.OrderKeepsDisplacedFinished | app/chat2/routes_turn.py:583-617 | over every clean run each spawn displaces a finished turn if and only if each comes after the last stretch of the runner it displaces |
| TurnProtocol.LockAloneLetsUnfinishedBeDisplaced | app/chat2/live.py:79-87 | what the lock alone, without the order of scheduling, would let happen: an entry displaced on its last stretch |
| TurnProtocol.FailedReplayBreaksExclusion | app/chat2/routes_turn.py:264-280 | a run in which a cancelled replay puts two turns of one chat in flight |
| LiveFrames.OutputIsPrefix | app/chat2/live.py:113-131 | in every reachable state a subscriber has put out a prefix of the frames, and all of them when it terminates |
| LiveFrames.NoLostWakeup | app/chat2/live.py:92-103 | over every run no subscriber is left asleep with something to deliver and no notice to come, if and only if no cancellation swallowed the last notice while one slept behind |
| LiveFrames.UninterruptedKeepsWakeups | app/chat2/live.py:92-103 | without cancellation inside an append or the finish no wakeup is lost |
| LiveFrames.FinishedTurnDrains | app/chat2/live.py:122-131 | a woken subscriber of a finished turn terminates with all frames after exactly as many stretches as it has frames left |
| LiveFrames.AwakeCatchesUp | app/chat2/live.py:122-131 | an awake subscriber of a running turn puts out every frame there is within as many stretches of its own, and one for leaving the lock |
| LiveFrames.GoesToSleep | app/chat2/live.py:126-131 | a subscriber with nothing to deliver sleeps after two stretches, with nothing put out |
| LiveFrames.NoticeWakes | app/chat2/live.py:92-103 | a notice wakes exactly those who sleep |
| GpuOwnership.GpuOwnership.Claim | app/runtime/gpu_ownership.py:31-44 | a claim is refused whole with the occupied cards or granted whole |
| GpuOwnership.ConflictsExact | app/runtime/gpu_ownership.py:35-40 | a card conflicts exactly when it is asked for and another model owns it |
| GpuOwnership.AssignExact | app/runtime/gpu_ownership.py:41-42 | a granted claim gives the model exactly the cards asked for and changes no other |
| Supervisor.Supervisor.Load | app/runtime/supervisor.py:138-247 | every way out of a load, with the whole state of all tables and claims it leaves |
| Supervisor.Supervisor.Unload | app/runtime/supervisor.py:348-377 | refused outside READY without force, otherwise the model is gone from every table and owns no card, and its watcher is cancelled |
| Supervisor.Supervisor.WatchExit | app/runtime/supervisor.py:124-134 | the exit watcher's lock region tears down the model it finds, or nothing |
| Supervisor.Supervisor.Mark | app/runtime/supervisor.py:279-305 | a lifecycle mark is taken only from the one state it expects |
| SupervisorProtocol.WatcherTearsDownItsOwn | app/runtime/supervisor.py:113-136 | over every run, whatever failed in it: a watcher that tears a model down finds the very engine it was started for, and that engine has exited |
| SupervisorProtocol.TablesStayConsistent | app/runtime/supervisor.py:138-247 | over every run: all tables have one domain and the claims are exactly the cards of running engines, if and only if no load was cancelled with cards claimed and none failed after its handle was stored |
| SupervisorProtocol.CardsAreExclusive | app/runtime/gpu_ownership.py:31-44 | two running models own disjoint cards, every claim belongs to a running model, and a load conflicts exactly when a running engine is on one of its cards |
| SupervisorProtocol.UnloadRepairs | app/runtime/supervisor.py:348-377 | whatever a load left behind, an unload of that model makes the tables consistent again |
| SupervisorProtocol.CancelledLoadLeaks | app/runtime/supervisor.py:162-247 | a load cancelled while spawning leaves its card claimed and the next load on it refused |
| SupervisorLifecycle.LifeExactly | app/runtime/supervisor.py:138-305 | over every run: a model has a state exactly from the load that started it until a step that ends it; its row holds the port, host, overrides and cards of that load, and it is READY exactly after a mark for warming and then one for ready |
| SupervisorLifecycle.UnloadExactly | app/runtime/supervisor.py:348-377 | over every run: an unload changes nothing exactly if it is not forced and the model runs without having been marked warming and then ready; otherwise the model is gone from every table and owns no card, and nothing else changed |
| SupervisorLifecycle.RefusedLoadChangesNothing | app/runtime/supervisor.py:138-180 | a load of a running model, with an unsupported pin or on a card of another model is refused and changes nothing |
| RestartBudget.RestartBudget.Allow | app/runtime/watchdog.py:219-223 | purges what has left the window and allows below the limit |
| Watchdog.AskBudget | app/runtime/watchdog.py:735-762 | the budget object's allow and record are the step in which either path asks for a restart, and leave other models alone |
| Watchdog.ResetBudget | app/runtime/watchdog.py:810-815 | a healthy probe forgets this model's restarts only |
| RestartBudget.AllowedMeansSpread | app/runtime/watchdog.py:219-227 | when the purged list allows, the restart that many places back in the whole history is out of the window |
| RestartBudget.RefusedMeansCrowded | app/runtime/watchdog.py:219-223 | it refuses only when that many restarts of the whole history are inside the window |
| Watchdog.CeilingHolds | app/runtime/watchdog.py:706-866 | over every run, both paths together: between healthy probes and with one limit, any limit + 1 restarts stretch over a whole window |
| Watchdog.AsksExactly | app/runtime/watchdog.py:817-825 | over every run: an unhealthy probe asks for a restart exactly if it is the threshold-th in a row |
| Watchdog.DeadEngineIsCaught | app/runtime/watchdog.py:791-866 | a loaded row whose engine stays silent is left alone for threshold - 1 passes, and the next probe charges a restart if fewer than the limit lie in the window, and is refused one otherwise |
| Watchdog.FailedRestartIsRetried | app/runtime/watchdog.py:706-762 | a restart that comes up leaves a loaded row without a flag; one that fails or raises leaves it flagged for the sweep |
| Watchdog.ExitFlagsServing | app/models/routes_api.py:1285-1316 | an engine exit flags a row that was serving, leaves the flag of one that was loading as it was, and leaves any other row alone |
| Watchdog.FlagNeedsCause | app/runtime/watchdog.py:618-668 | over every run without an engine exit and without a restart of the watchdog's own no row comes to be flagged |
| Watchdog.LeaseHoldsOff | app/runtime/watchdog.py:732-735 | a row that is leased when the sweep lists it is not restarted before the next pass |
| Watchdog.RestLasts | app/runtime/watchdog.py:618-668 | once a row is down and unflagged, no watchdog pass restarts it until something else loads it |
| Watchdog.RefusalIsFinal | app/runtime/watchdog.py:854-866 | after a refusal of the probe path no run that follows restarts the model before something else loads it, if and only if the exit callback has not flagged the row meanwhile |
| Watchdog.FlaggedIsRestarted | app/runtime/watchdog.py:706-762 | every flagged row can be restarted: once the window is past, the sweep of this very pass does it |
| Watchdog.DroppedFlagIsFinal | app/runtime/watchdog.py:735-744 | a refusal of the sweep is final, over every run that follows, for a row that is still down |
| Watchdog.LoadedIsCleanRun | app/db/repos/models.py:219-258 | over every run a row that reads loaded carries no prior status |
| Watchdog.LateRefusalIsUndone | app/runtime/watchdog.py:854-866 | a run in which a refused model is restarted by the sweep |
| ThinkTags.TailScanFindsNewTags | app/proxy/runaway.py:126-130 | scanning retained tail and new piece acts on exactly the new tags of the whole text |
| ThinkTags.SortedTagsAreEvents | app/proxy/runaway.py:160-171 | two searches sorted by position give the tags of one left-to-right scan |
| ThinkTags.AtIsTheTag | app/proxy/runaway.py:160-171 | a tag is found exactly where its seven or eight characters stand |
| ThinkTags.OpenerExact | app/proxy/runaway.py:172-177 | the block that is open was opened by the first opening tag after the last closing one |
| Runaway.RunawayDetector.ScanTags | app/proxy/runaway.py:154-177 | the in-place scanner applies exactly those tags in text order |
| Runaway.RunawayDetector.FeedRepetition | app/proxy/runaway.py:179-214 | the rolling window answers whether a shingle completed in the piece repeats too often, and its hash, counts and live shingles stay those of the whole text |
| Runaway.RunawayDetector.Feed | app/proxy/runaway.py:114-152 | the verdict of a piece and the whole new state, as a function of the text so far |
| Runaway.ChunkingIsIrrelevant | app/proxy/runaway.py:126-177 | for every chunking each tag is acted on once, in text order, and the think state is that of one scan |
| Runaway.BlockStartExact | app/proxy/runaway.py:126-177 | for every chunking: while a block is open, its start is the number of the piece in which the tag that opened it ends |
| Runaway.TooLongExactly | app/proxy/runaway.py:132-136 | for every chunking: the think budget is exceeded exactly when more than that many pieces came after the one in which the tag that opened the block ends |
| Runaway.FeedAll | app/proxy/runaway.py:114-152 | a detector fed piece by piece trips for thinking exactly at the first piece after which the block has been open too long, unless it tripped before |
| Runaway.RepetitionIsChunkIndependent | app/proxy/runaway.py:179-214 | for every chunking the repetition signal is that of the whole text |
| Repetition.HashShrink | app/proxy/runaway.py:190-194 | dropping the oldest character by its power of the base leaves the hash of the trailing characters |
| Repetition.GenuineRepeatFires | app/proxy/runaway.py:195-214 | a shingle recurring as text too often inside the window always fires |
| Repetition.RepeatsExactly | app/proxy/runaway.py:195-214 | without hash collisions the signal fires exactly when the shingle just completed occurs as text too often in the last window + 1 characters |
| Repetition.OversizedShingleNeverRepeats | app/proxy/runaway.py:202-213 | with a shingle longer than the window nothing ever fires |
| Sse.SplitSse | app/chat2/events.py:15-35 | the loop computes the payloads and the tail of the stripped buffer, and the tail holds no complete block |
| Sse.SplitConcat | app/chat2/events.py:15-35 | splitting a longer text keeps the payloads already complete and goes on from the tail |
| Sse.ChunkingIsIrrelevant | app/chat2/events.py:110-116 | any two chunkings, with or without CR, give the payloads and the tail of one call on the whole stream |
| Sse.SplitFrames | app/chat2/events.py:46-47 | the splitter reads back exactly the payloads the server framed, with nothing over |
| Sse.SplitBlocks | app/chat2/events.py:15-35 | blocks of any lines and an unfinished tail: the payloads are those of the lines that begin with data:, in order and without whitespace around them, and the tail is left over |
| Normalizer.Stream.Normalize | app/chat2/events.py:110-175 | the generator's events and state are those of folding its payloads in order |
| NormalizerFacts.StreamFaithful | app/chat2/events.py:110-175 | for every stream the text deltas join to the text, reasoning and argument deltas likewise, the usage is the one last announced, and each tool call is emitted complete at most once |
| NormalizerFacts.CompleteExactly | app/chat2/events.py:59-71 | for every stream and every call emitted as complete: it carries a beginning of the final arguments, all of them exactly when no argument text follows, and the final id, name and arguments exactly when nothing late follows |
| NormalizerFacts.EventsIgnoreChunking | app/chat2/events.py:110-175 | events and final state do not depend on how the bytes were cut |
| NormalizerFacts.EndMarkerCompletes | app/chat2/events.py:118-123 | from any faithful state: after the end marker every tool call has been emitted complete exactly once |
| NormalizerFacts.LateArgumentsAreMissed | app/chat2/events.py:169-175 | a stream whose complete event misses the arguments that follow it |
| NormalizerInputs.StateComesFromPayloads | app/chat2/events.py:110-175 | for every stream, over the payloads before the first that is no object: the text is all content joined, the reasoning the first non-empty of its two fields joined, and for each index the arguments joined with the last id and name; the last usage, the first id, and the four answers for the last finish reason |
| NormalizerCalls.EmittedExactly | app/chat2/events.py:118-175 | for every stream: a call is emitted complete exactly once if a finish reason or an end marker comes after a piece that names it, and not at all otherwise |
| NormalizerCalls.FlushSends | app/chat2/events.py:59-71 | a flush puts out calls alone, by ascending index, each with what its slot holds and whether the client runs it |
| GodMode.GodModeHub.Publish | app/proxy/godmode.py:68-94 | the ring is again the longest suffix of the whole history within both bounds with an exact total, every queue takes the event or loses its oldest for it, and every unlagged subscriber is still without a gap |
| GodMode.GodModeHub.Subscribe | app/proxy/godmode.py:114-122 | a new subscriber is shown exactly the ring |
| GodMode.GodModeHub.UnlaggedSeesNoGap | app/proxy/godmode.py:96-122 | snapshot, consumed and queued events of an unlagged subscriber are consecutive up to the newest |
| GodMode.GodModeHub.RingInPlainTerms | app/proxy/godmode.py:78-94 | the ring holds the newest events within both bounds, and one event more would break one of them |
| MediaStore.MediaStore.Put | app/proxy/godmode.py:175-203 | a rejected payload changes nothing; an accepted one becomes the newest and what is kept is the longest suffix within the budget |
| MediaStore.OverBudgetMeansAlone | app/proxy/godmode.py:195-200 | the store is over budget only with the newest item alone, and nothing is evicted that would still fit |
| MediaStore.KeptInPlainTerms | app/proxy/godmode.py:195-200 | what a put keeps are the newest items, within the budget unless it is one alone, and one item more would be over it |
| MediaStore.WithoutInOrder | app/proxy/godmode.py:190-194 | taking an id out leaves everything else in its order |
| ContentLog.Sink.Drain | app/proxy/content_log.py:290-349 | one drain empties the queue and each file grows by exactly the admitted prefix of its own records |
| ContentLog.DropsOnlyWhenFull | app/proxy/content_log.py:320-334 | a record is dropped only after its file reached the ceiling |
| ContentLog.AdmittedExactly | app/proxy/content_log.py:320-341 | of a file's records those before the first that finds its own positive ceiling reached are written, each as its line and a newline, and none after it |
| ContentLog.QueuedInOrder | app/proxy/content_log.py:313-334 | a file's records are all those queued with its path, in the order submitted |
| ContentLog.CeilingBoundsFile | app/proxy/content_log.py:320-341 | a drain leaves a file no larger than its old size or the ceiling less one plus the longest record |
| Collector.Store.SweepFiles | app/chat2/gc.py:78-86 | exactly the files with a live row stay |
| Collector.Store.ExpireDrafts | app/chat2/gc.py:95-108 | exactly the stale drafts go, and a file exactly when no row is left under its key |
| Collector.LastRowTakesFile | app/chat2/gc.py:95-108 | with one mime to a key, the last stale draft takes the key's file along |
| Collector.Store.ExpireGroups | app/chat2/gc.py:109-123 | exactly the groups whose newest live row is past retention and whose mime is known are evicted with their files |
| Collector.Store.TrimUsers | app/chat2/gc.py:137-155 | each user's chosen groups are evicted with their files, in any order of users |
| Collector.ChosenEnough | app/chat2/gc.py:145-155 | trimming stops only below eight tenths of the quota or with nothing evictable left |
| Collector.ChosenNoMore | app/chat2/gc.py:145-155 | trimming does not go on below eight tenths of the quota |
| Collector.ChosenOldestFirst | app/chat2/gc.py:132-155 | no group is evicted while an older evictable one is spared |
| CollectorPass.CollectOnce | app/chat2/gc.py:67-156 | the five stages in a row are a pass in the sense of the lemmas below |
| CollectorPass.AnswerExists | app/chat2/gc.py:132-140 | whatever rows there are, the quota query has an answer, so a pass from any store exists |
| CollectorPass.SurvivorsHaveFiles | app/chat2/gc.py:67-156 | after a pass every surviving live row with a known mime has its file |
| CollectorPass.UnlinkedHaveNoLiveRow | app/chat2/gc.py:67-156 | a file a pass unlinked belongs to no live row that is left |
| CollectorPass.RowsAccountedFor | app/chat2/gc.py:87-124 | a pass deletes exactly the live rows without a file and the stale drafts, adds none, and changes a row only by marking a live one evicted |
| CollectorPass.DeletedExactly | app/chat2/gc.py:87-108 | a pass deletes exactly the live rows whose file is missing and the live ones never linked and more than seven days old |
| CollectorPass.LinkedRowsStay | app/chat2/gc.py:95-108 | a row of a sent message is never deleted while its file is there, and a live row that is left has its file |
| CollectorPass.AgedExactly | app/chat2/gc.py:109-123 | retention evicts a live row exactly if the newest staying row of its group is past the retention time and the group's mime is known |
| CollectorPass.AgedFileGoes | app/chat2/gc.py:109-123 | a group that retention evicts loses its file |
| CollectorPass.TrimmedFileGoes | app/chat2/gc.py:137-155 | a group that the quota evicts loses its file |
| CollectorPass.OrphansGo | app/chat2/gc.py:67-86 | what is on disk after a pass was there before, is no temporary file, and had a live row |
| CollectorPass.UnderQuotaUntouched | app/chat2/gc.py:137-155 | a user at or below nine tenths of the quota loses nothing to it |
| CollectorPass.TrimmedEnough | app/chat2/gc.py:137-155 | asked again after the pass, a user who was over nine tenths is below eight tenths or has nothing evictable |
| CollectorPass.SecondPassChangesNoRow | app/chat2/gc.py:67-156 | a second pass at the same time changes no row |
| CollectorPass.YoungDraftsSurvive | app/chat2/gc.py:109-155 | with a retention of at least the draft age limit no young draft is touched |
| CollectorPass.ShortRetentionEvictsDrafts | app/chat2/gc.py:109-123 | for every shorter retention a young draft is evicted |
| CollectorPass.RetentionExact | app/chat2/gc.py:109-155 | every pass from every store keeps every young draft if and only if the retention is at least the draft age limit |
| SharedDocs.LoadFragment | scripts/sync-shared-docs.py:136-151 | a fragment without its blank ends, or the right error |
| SharedDocs.Assemble | scripts/sync-shared-docs.py:154-213 | the loop succeeds exactly when the document can be read as plain lines and regions, and then refills it; an error names the line or the slug at fault |
| SharedDocs.ReadingUnique | scripts/sync-shared-docs.py:161-211 | a document can be read in one way only |
| SharedDocs.AssemblesUnique | scripts/sync-shared-docs.py:154-213 | the result of assembling is unique |
| SharedDocs.AssembleIdempotent | scripts/sync-shared-docs.py:154-213 | without marker lines in fragments, assembling its own output changes nothing |
| SharedDocs.CheckPassesAfterWrite | scripts/sync-shared-docs.py:245-266 | the written text assembles to itself, so a check after a write finds nothing |
| SharedDocs.MarkerText | scripts/sync-shared-docs.py:154-213 | a marker line is, but for whitespace around it, the opening or closing comment of a slug |
| SharedDocs.BodyExact | scripts/sync-shared-docs.py:136-151 | a fragment's body is its lines from the first to the last that is not blank |
| SharedDocs.RegionIsReplaced | scripts/sync-shared-docs.py:154-213 | in a document with one region the fragment takes the place of what was between the markers, and everything else stays |
| Lines.SplitJoin | scripts/sync-shared-docs.py:157-213 | lines without breaks survive joining and splitting |
| Baseline.ParseBaseline | scripts/mypy-baseline.py:194-219 | the loop with its pending header computes the parse, with the line of the first error |
| Baseline.RenderBaseline | scripts/mypy-baseline.py:171-191 | the loop prints the comment block and every entry |
| BaselineFacts.MatchHeaderExact | scripts/mypy-baseline.py:62 | whatever the word characters beyond ASCII are, the header pattern accepts exactly the printed form of a well-formed header, and reads it as that header |
| BaselineFacts.RoundTrip | scripts/mypy-baseline.py:171-219 | reading a printed baseline gives the multiset back, duplicates and empty sources included, in whatever order it was printed |
| BaselineFacts.RoundTripExact | scripts/mypy-baseline.py:163-219 | a key survives if and only if it is well formed |
| BaselineFacts.AcceptedTextReprints | scripts/mypy-baseline.py:194-219 | whatever text is accepted, its keys printed again read back the same |
| BaselineFacts.PassesExact | scripts/mypy-baseline.py:266-269 | nothing new and nothing stale means equal multisets |
| BaselineFacts.WriteThenCheck | scripts/mypy-baseline.py:236-282 | after a write, a check passes exactly for the findings written |
| BaselineFacts.EntryText | scripts/mypy-baseline.py:163-168 | what a printed entry looks like |
| BaselineFacts.DigitsExact | scripts/mypy-baseline.py:171-191 | a count is printed in decimal without leading zeros |
| BaselineFacts.FirstBadLine | scripts/mypy-baseline.py:194-219 | an error names the first line that cannot be read: the lines before it can |
| Fit.ReserveIsSum | app/models/fit.py:54-109 | the reserve is, for each sequence of the batch, the sum over all layers of a key and a value tensor for every token the layer keeps, heads times head size times bytes, a declared head size taking precedence; it is refused exactly for no attention heads or a bad number of sliding layers |
| Fit.CapIsWholePart | app/models/fit.py:112-125 | a memory cap is the whole part of memory times utilization |
| Fit.ReserveAgainstLine | app/models/fit.py:54-109 | for every shape: the reserve lies below the solver's line exactly below the window and above it exactly when the window is missing |
| Fit.LineExact | app/models/fit.py:192-204 | the reserve is the solver's line at every length from the window on if and only if the window is not missing |
| Fit.RecommendExact | app/models/fit.py:147-218 | for every shape: which lengths up to the recommendation meet the target, and that every longer one the window does not cut short misses it, and all of them when there is none |
| Fit.SolverTrusted | app/models/fit.py:147-218 | every recommendation for any memory and file meets its target if and only if the window is not missing |
| Fit.VerdictBands | app/models/fit.py:127-144 | the verdict in whole numbers: bands at 55, 80 and 100 hundredths of the budget, red for none |
| Fit.FitsByExcess | app/models/fit.py:112-144 | for every shape and length: green or yellow is a bound on what the reserve holds beyond the line |
| Fit.RecommendationFits | app/models/fit.py:127-218 | exactly when a recommendation is green or yellow: with the window in place always but for an empty file with an even division, with the window missing when the sliding layers fit into what is left over |
| Fit.MissingWindowMisleads | app/models/fit.py:194-218 | every shape with the window missing has red recommendations, for each length from three on |
| Fit.NeverRaisesExact | app/models/load_preflight.py:69-150 | the preflight raises exactly for a configuration that is no object, a field that does not convert, or a complete one with a length to evaluate and a negative head or layer count |
| Fit.ExplicitIsKept | app/models/load_preflight.py:178-198 | an explicit length is never rewritten and blocked only when red |
| Fit.CapExact | app/models/load_preflight.py:160-187 | a cap is positive, strictly below the original and green or yellow; an unset length is capped exactly when it is red and some positive length meets the target |

## Left out

- HTTP, FastAPI, httpx and SQLite: the database is a map with atomic commits, the upstream engine a
  nondeterministic source, the clock a parameter that never runs backwards.
- The binary heap of `asyncio.PriorityQueue` is kept as the sequence it would serve; its array layout adds nothing.
- The scheduler's `_manual_release` test knob and the other helpers for tests.
- AdmissionProtocol.SlotsConserved: needs a ceiling of at least one, which the default always is; a smaller one passed explicitly is the subject of NoCapacityStrandsBookkeeping.
- RateLimiter.AdmittedRateBounded: products of window and rate are taken over the reals, so rounding of floats is not modelled; a window given explicitly may be anything not negative.
- Contention for the condition's lock inside `append` and `finish`: the lock is never held across a suspension point. LiveFrames still takes the frame and its notice as two steps, and a cancellation between them as a third.
- The order of the persist task's two done-callbacks: the model lets a cancelled runner end between them, which the event loop does not.
- The body of `_persist_turn`, titles, images and payload building: the persist task is one step that ends.
- A generator that suspends is not a Dafny method: `subscribe` is one method per stretch, `Resume`.
- Backend `plan()`, engine drivers, probes: spawning may succeed, fail or be cancelled; the cards of an engine are the ones its load asked for.
- The text of a GPU conflict message.
- Process inspection, evidence capture and killing in the watchdog; a deleted model row; leases beyond the fact that a leased row is skipped.
- Watchdog.RefusalIsFinal: the exit callback's two writes are one step here, so a load that falls between them is not covered; a later pass may read another limit.
- Restores at warden start, which are not charged to the budget.
- Negative sizes and windows of the runaway detector's settings; its verdict text.
- JSON: payloads arrive parsed, with absent and empty fields the same; a chunk whose inner fields have the wrong type is not modelled, one that is no object at all ends the stream.
- UTF-8: payloads and log lines are bytes, text is a sequence of characters.
- Usage, parts and the options card built from a finished stream.
- The god-mode hub for a negative event bound; the content log's warning counters, directory modes and write errors, and thread races on its queue.
- File names in directories that are not plain user numbers; malformed timestamps and hashes, on which a collector pass raises.
- CollectorPass.CollectOnce: the quota query is a function of the rows, and the result is a pass when its answer is right in the sense of `Answers`; the least mime of a group is any fixed rule on the set of its mimes.
- The comment block of the baseline is any lines that start with a hash sign, and its entries may come in any order, of which the sorted one is an instance.
- The table of word characters beyond ASCII: the baseline lemmas hold for any set of them that ends no line.
- Paths of documents and fragments: a fragment is looked up by its slug.
- Fit: `torch_dtype` arrives as its size in bytes, malformed where it is no string; floats are reals.
- Fit.NeverRaisesExact: numbers beyond the range of a float, on which Python's division raises, are numbers like any others here.
- Authentication, cookies, settings, presets, discovery, the setup wizard, the frontend, and small stores such as the port allocator would add only easy members.
