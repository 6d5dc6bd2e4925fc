# Dotori in Dafny

This project models the parts of Dotori whose correctness rests on state, order or arithmetic, and
proves what they keep. `dafny verify dfyconfig.toml` checks all of it.

| part | modules | source |
|---|---|---|
| priority admission queue | `WaiterHeap`, `AdmissionSteps`, `AdmissionRuns`, `AdmissionOutcomes`, `Admission` | `app/document_ai/embedding/admission.py` |
| chunk batching and claims | `Batching`, `Claims`, `EmbeddingExecutor`, `BatchOutcomes` | `app/document_ai/embedding/executor.py` |
| materialised path tree | `Paths`, `PathTree`, `StaleMoves`, `PathCycles`, `PathTreeRuns`, `MoveOutcomes`, `NodeObject` | `app/files/models.py`, `app/files/api_v1/file_views.py` |
| memory planner | `Planner`, `PlannerProperties`, `PlannerFigures`, `PlannerSpace`, `PlannerPreference`, `PlannerSearch` | `app/llm_installation/planner.py` |
| runtime switch | `Docker`, `Lifecycle`, `LifecycleRuns`, `LifecycleOutcomes`, `RuntimeManager` | `app/llm_installation/runtime_lifecycle.py` |
| calibration and recovery | `Calibration`, `CalibrationOutcomes`, `Percentiles`, `StepSummary`, `MeasurementOutcomes`, `Generations`, `GenerationOutcomes`, `ConfigStore` | `app/llm_installation/calibration.py`, `app/llm_installation/config_store.py`, `scripts/calibrate_llm_concurrency.py` |
| ranking and metrics | `StableSort`, `Ranking`, `RankingOutcomes`, `Retrieval`, `RetrievalOutcomes` | `app/llm_installation/selection.py`, `scripts/score_retrieval.py` |
| workspace membership | `Membership`, `MembershipOutcomes`, `WorkspaceServices` | `app/workspaces/services.py`, `app/workspaces/models.py` |

Each imperative part has two layers. A class or an in-place method follows the source statement by
statement; its contract ties the new state to a function on values. The properties are lemmas about
those functions, over all inputs, all reachable states or all runs. The `...Outcomes` modules,
`PlannerPreference` and `PlannerFigures` say what each operation does in terms of the state before it,
with the numbers of the source written out. What the source takes from
outside enters as a parameter, so a lemma about all parameters is a lemma about all outcomes: whether
a deadline has passed, the outcome of every Docker command, whether the broker took a message,
database faults, the clock.

**Concurrency.** `acquire` holds the condition's lock except while it waits. It is cut at the wait:
every step of `AdmissionSteps` is one critical section, and `asleep` is the condition's own list of
threads that have not been notified. Batch executions are serialised by the single job slot
(`app/document_ai/executor_views.py:35` and `:179-186`), so one planning call and one execution are one
step each in `Claims`; a published batch stays deliverable for ever.

**Numbers.** Megabytes are integers as in the source; 1.25, 1.15 and the weight of one layer are exact
rationals, multiplied out. Latencies, ratios and scores are reals. `1 / log2(i + 2)` enters as a
positive, non-increasing function.

## Where the code does less than one might expect

The model follows the code; these are proved as they are, with the exact condition.

- With two or more slots and room for two or more waiters the admission queue can leave a slot free
  while its head sleeps (`WorkConservingIff`, `SlotIsMissed`), because a grant does not notify the next
  waiter. It never happens while no lease is out, and ends with the next release.
- The bulk update of a folder move goes by path prefix and replaces every occurrence of the old path. A
  move keeps the index if and only if each row the update finds lies below the folder and does not
  repeat its path (`MoveKeepsIndexIff`). Repeated segments break it, and then two moves can close a cycle
  in the parent links (`RepeatedSegmentAllowsCycle`), or a move to a free path fails because two rows
  below it would get the same one (`RepeatedSegmentCollides`); so do slashes in names, which the rename view does
  not refuse (`SlashInNameBreaksIndex`, `SlashEndedFolderLosesChildren`).
- `bulk_move` (`app/files/api_v1/file_views.py:356-364`) loads all its nodes before it moves the first.
  The object of a node below a folder moved before it holds an old path, so its own update misses its
  children (`BulkMoveTearsNested`,
  `BulkMoveLeavesChildBehind`). `StaleMoveKeepsIndexIff` says when a stale move is harmless.
- Claimed chunks stay processing with nothing published for them when planning fails between the claim
  and the first dispatch, when the update that resets them after a failed dispatch raises too, or when
  the process is killed between dispatches; and a batch the broker took from a dispatch that raised is
  published while its chunks are pending (`ClaimedIffPublished`, `PlanIsCleanIff`,
  `ProcessingWasPublishedIff`).
- A failing `docker inspect` reads as "no container". Apply and resume then remove the container under
  the name, be it one Dotori does not own (`ForeignSurvivesApplyIff`, `ForeignSurvivesResumeIff`) or its own
  running original (`OriginalSurvivesIff`, `SilentInspectLosesOriginal`, `OriginalSurvivesResumeIff`). A
  failing rename out of the way is not checked either, and the next command removes the original. A
  rollback can be reported while the failed candidate holds the name (`RolledBackMeansOriginalIff`), and a
  backup left behind takes the next switch's way back (`LeftoverBackupDisablesRollback`).
- When the commit of a validated candidate raises, the candidate keeps running under the name while the
  active generation is still the old one, whose container is stopped under the backup name
  (`CommitFailureLeaves`, `CommitFailureBreaksAgreementIff`).
- Recovery of an interrupted calibration promises the pre-calibration generation; when the starting
  generation was itself calibrated it returns to the one before the first calibration
  (`RecoveryReturnsToStartIff`).
- The diagnostic plan built when nothing fits reports its cache as in RAM (`app/llm_installation/planner.py:991`) while it
  is placed in VRAM (`DiagnosticMeaning`).
- An offload placement without any GPU loses the share it moves out of RAM (`OffloadConservesIffGpu`).
  `select_runtime` (`app/llm_installation/planner.py:352-361`) picks offload only when there is a GPU.
- nDCG exceeds 1 for some judgements exactly when a returned name repeats, and recall exceeds 1 for
  some query exactly when the relevance threshold is not positive.
- An active member who redeems a code uses it up without any change to the membership
  (`MemberExhaustsCode`).

## Model

| member | source | states |
|---|---|---|
| `WaiterHeap.RootIsLeast` | app/document_ai/embedding/admission.py:24-28 | in a heap the first waiter is less than every other one, by (priority, sequence) |
| `WaiterHeap.SiftUp` | app/document_ai/embedding/admission.py:96 | moving an element up the list restores the heap; same elements |
| `WaiterHeap.SiftDown` | app/document_ai/embedding/admission.py:105 | moving an element down the list restores the heap; same elements |
| `WaiterHeap.HeapPush` | app/document_ai/embedding/admission.py:96 | pushing keeps a heap and adds exactly the new waiter |
| `WaiterHeap.HeapPop` | app/document_ai/embedding/admission.py:105 | popping returns the first waiter, which is the least, and leaves a heap of the others |
| `WaiterHeap.RemoveAndHeapify` | app/document_ai/embedding/admission.py:152-158 | removing a waiter and re-heapifying leaves a heap without it; a missing waiter is reported and nothing changes |
| `Admission.EmbeddingPriorityAdmission.Create` | app/document_ai/embedding/admission.py:57-77 | construction succeeds exactly on legal settings and starts in the initial state |
| `Admission.EmbeddingPriorityAdmission.Acquire` | app/document_ai/embedding/admission.py:79-113 | the code up to the first wait is one Arrive step of the monitor: fast path, refusal, enqueue, first check; the heap stays a heap of exactly the queued waiters |
| `Admission.EmbeddingPriorityAdmission.Wake` | app/document_ai/embedding/admission.py:99-113 | one later pass through the loop is one Wake step |
| `Admission.EmbeddingPriorityAdmission.Recheck` | app/document_ai/embedding/admission.py:99-116 | grant the head, time out (removing the waiter twice, the second time without effect) or sleep |
| `Admission.EmbeddingPriorityAdmission.Interrupt` | app/document_ai/embedding/admission.py:114-116 | an exception in the wait removes the waiter and wakes everybody |
| `Admission.EmbeddingPriorityAdmission.TryAcquire` | app/document_ai/embedding/admission.py:118-124 | the probe takes a slot only if one is free and nobody waits |
| `Admission.EmbeddingPriorityAdmission.MayEnqueue` | app/document_ai/embedding/admission.py:139-150 | the counting loop decides the capacity and the document share of the set of waiters |
| `Admission.EmbeddingPriorityAdmission.Remove` | app/document_ai/embedding/admission.py:152-158 | removal from the list is removal from the set; a waiter already gone is left alone |
| `Admission.EmbeddingPriorityAdmission.ReleaseSlot` | app/document_ai/embedding/admission.py:160-165 | through an unreleased lease the guard for a missing active lease never fires |
| `Admission.EmbeddingPriorityAdmission.HeadIsLeast` | app/document_ai/embedding/admission.py:100-104 | the first element of the list is the least queued waiter, so the identity test of the loop is the test for the least waiter |
| `Admission.AdmissionLease.Release` | app/document_ai/embedding/admission.py:36-40 | gives the slot back once; a second call changes nothing and no call reports an error |
| `Admission.CountIsSetSize` | app/document_ai/embedding/admission.py:145-147 | counting documents in the list gives the number of waiting documents |
| `AdmissionRuns.StepKeepsInv` | app/document_ai/embedding/admission.py:79-165 | every critical section keeps the accounting, the numbering of waiters and the awake head |
| `AdmissionRuns.NoStalledQueue` | app/document_ai/embedding/admission.py:79-165 | in every reachable state with no lease out and somebody waiting, the least waiter is awake and its next pass is granted even past its deadline |
| `AdmissionRuns.SingleSlotIsWorkConserving` | app/document_ai/embedding/admission.py:79-165 | with one slot: whenever it is free, the head of the queue is awake |
| `AdmissionRuns.MissedSlotIsTemporary` | app/document_ai/embedding/admission.py:99-113 | with several slots a head asleep beside a free slot implies an unreleased lease, and the release of any lease lets the head in |
| `AdmissionRuns.SlotIsMissed` | app/document_ai/embedding/admission.py:100-107 | with two or more slots and room for two or more waiters there is a run after which a slot is free and the head of the queue asleep |
| `AdmissionRuns.WorkConservingIff` | app/document_ai/embedding/admission.py:79-165 | for all legal settings: no run ever leaves the head asleep beside a free slot if and only if there is one slot or room for at most one waiter |
| `AdmissionRuns.Accounting` | app/document_ai/embedding/admission.py:139-165 | over every run: active equals the unreleased leases and stays within the slots; waiters within capacity; documents within capacity minus reserve |
| `AdmissionRuns.ReleaseIsSafe` | app/document_ai/embedding/admission.py:36-40 | over every run no release reports a missing active lease, and a repeated release is a no-op |
| `AdmissionRuns.ReservedSlotsServeQueries` | app/document_ai/embedding/admission.py:139-150 | a query is refused as queue_full only if at least query_reserve queries wait |
| `AdmissionRuns.NobodyIsPassed` | app/document_ai/embedding/admission.py:84-107 | a granted request passes no waiter, except a query passing documents and the head passing the rest; so never a document while a query waits |
| `AdmissionRuns.LeftForGood` | app/document_ai/embedding/admission.py:91-96 | a waiter that left the queue never returns |
| `AdmissionRuns.WaitsUntilGranted` | app/document_ai/embedding/admission.py:91-113 | a request granted later stays queued in between, under the number it took on arrival |
| `AdmissionRuns.SameTypeIsFifo` | app/document_ai/embedding/admission.py:50-55 | over every run, requests of one type are granted in arrival order, fast path included, whatever times out or is interrupted |
| `AdmissionOutcomes.ArrivalOutcome` | app/document_ai/embedding/admission.py:79-113 | how a request ends its arrival, said of the state before it: at once, refused, granted, timed out or asleep, each exactly when; only the last leaves it queued |
| `AdmissionOutcomes.DeadlineEndsWait` | app/document_ai/embedding/admission.py:99-113 | a queued waiter whose deadline has passed leaves the queue: granted exactly if a slot is free and it is the least waiter, else timed out with everybody woken |
| `AdmissionOutcomes.DeadlineEndsArrival` | app/document_ai/embedding/admission.py:84-113 | the same for a request that arrives with its deadline passed and may be queued |
| `AdmissionOutcomes.SleepsOnlyBeforeDeadline` | app/document_ai/embedding/admission.py:99-113 | a waiter goes back to sleep exactly if its deadline has not passed and no slot is free or another waiter is less |
| `AdmissionOutcomes.ExpiredNeverWaits` | app/document_ai/embedding/admission.py:99-113 | over every run: a caller found expired never sleeps, and is in no later queue |
| `AdmissionOutcomes.QueueChangesOnlySo` | app/document_ai/embedding/admission.py:79-158 | one waiter joins the queue with a first sleep and leaves it with its grant, timeout or cancellation; nothing else changes it |
| `AdmissionOutcomes.SlotsChangeOnlySo` | app/document_ai/embedding/admission.py:36-165 | every grant takes one free slot and a lease of its own; only the first release of a lease gives one back |
| `AdmissionOutcomes.WokenOnlySo` | app/document_ai/embedding/admission.py:99-165 | a release, a timeout and a cancellation wake everybody; a grant wakes nobody |
| `AdmissionOutcomes.ProbeAndCancelOutcome` | app/document_ai/embedding/admission.py:114-124 | the probe takes a slot exactly if one is free and nobody waits; an interrupted wait always ends |
| `Batching.GreedyPass` | app/document_ai/embedding/executor.py:91-110 | the loop yields a legal, saturated partition of the input in order |
| `Batching.GroupChunksIntoBatches` | app/document_ai/embedding/executor.py:81-110 | the batches concatenate to the input, are non-empty, respect the caps (a single chunk may exceed the token cap) and no order-preserving legal grouping has fewer batches |
| `Batching.GreedyIsOptimal` | app/document_ai/embedding/executor.py:95-110 | no partition into legal contiguous batches is shorter than a saturated one |
| `EmbeddingExecutor.Executor.EnqueueEmbeddingTasks` | app/document_ai/embedding/executor.py:126-214 | planning as one step with its result: skipped, nothing to do, all published, some batches returned to pending, an error report, or no result because the process died; with the greedy batches |
| `EmbeddingExecutor.Executor.Claim` | app/document_ai/embedding/executor.py:160-163 | marks exactly the selected chunks as processing |
| `EmbeddingExecutor.Executor.Dispatch` | app/document_ai/embedding/executor.py:171-191 | publishes batch by batch; when a dispatch raises, its chunks and the later ones return to pending if they are still processing, unless that update raises too or the process is killed |
| `EmbeddingExecutor.Executor.SortChunks` | app/document_ai/embedding/executor.py:503-546 | the classification loop: missing, disabled, not processing, empty text, valid; an exception leaves the earlier changes in place |
| `EmbeddingExecutor.Executor.EmbedDocumentChunksBatch` | app/document_ai/embedding/executor.py:452-677 | one execution is one step: commit all valid chunks, fail them all, or raise for a retry |
| `EmbeddingExecutor.Executor.MarkReadyDocuments` | app/document_ai/embedding/executor.py:234-256 | marks as ready exactly the documents of the batch all of whose chunks are embedded |
| `Claims.ClaimedIffDispatched` | app/document_ai/embedding/executor.py:160-191 | after planning, a claimed chunk is processing exactly if its dispatch returned; this fails exactly for undispatched chunks that no update reset |
| `Claims.ClaimedIffPublished` | app/document_ai/embedding/executor.py:160-191 | a claimed chunk is processing exactly if its batch was published; this fails exactly for chunks of a batch the broker took from a failed dispatch that was then reset, and for chunks neither published nor reset |
| `Claims.PlanIsCleanIff` | app/document_ai/embedding/executor.py:160-191 | for a whole call: processing means published for all its chunks if and only if a reset dispatch was not taken by the broker or, without a reset, every batch was |
| `Claims.DeliverableIffNotStranded` | app/document_ai/embedding/executor.py:160-191 | a chunk left processing by planning can be delivered if and only if it was not stranded or an older batch with it is still about |
| `Claims.PlanTouchesOnlySelected` | app/document_ai/embedding/executor.py:139-187 | planning changes no chunk it did not select |
| `Claims.ReportPartitionsBatch` | app/document_ai/embedding/executor.py:503-556 | when an execution returns, succeeded, skipped and failed chunks together are the batch, each occurrence once |
| `Claims.ExecuteEffect` | app/document_ai/embedding/executor.py:503-677 | chunks outside the batch or not processing keep their status; when the call returns no chunk of the batch is left processing |
| `Claims.ExecuteSaves` | app/document_ai/embedding/executor.py:581-590 | an execution commits at most one embedding per processing chunk, and such a chunk is completed |
| `Claims.OneEmbeddingPerClaim` | app/document_ai/embedding/executor.py:581-590 | over every run with arbitrary redelivery, a chunk has at most one committed embedding per claim |
| `Claims.IdleUntilReclaimed` | app/document_ai/embedding/executor.py:523-526 | a chunk that stopped processing keeps its status until it is claimed again |
| `Claims.RedeliveryIsInert` | app/document_ai/embedding/executor.py:523-526 | redelivering a batch whose execution returned changes no status and saves nothing unless one of its chunks was claimed again |
| `Claims.ProcessingIsDeliverable` | app/document_ai/embedding/executor.py:160-191 | over every run in which each planning call resets what it did not dispatch (or published everything), every processing chunk belongs to a published batch |
| `Claims.ProcessingWasPublishedIff` | app/document_ai/embedding/executor.py:160-191 | over every run, whatever fails: a processing chunk is in a batch published by its own last claim if and only if that claim did not strand it |
| `Claims.FinishedDocumentIsReady` | app/document_ai/embedding/executor.py:591-592 | over every run, a document whose last chunk is completed has been marked ready |
| `BatchOutcomes.GroupingMeaning` | app/document_ai/embedding/executor.py:91-110 | a batch of several chunks keeps within both caps, and a chunk opens a new batch only if it would have broken one |
| `BatchOutcomes.ReturnsIff` | app/document_ai/embedding/executor.py:503-677 | a delivered batch without repeats ends in a report, not an exception, exactly if nothing dies on the way and the model succeeds, fails for good, or has nothing to embed |
| `BatchOutcomes.ReportMeaning` | app/document_ai/embedding/executor.py:503-677 | succeeded are exactly the chunks to embed after a success; skipped exactly the stored ones inactive or not processing; failed the missing ones, the active processing ones without text and, after a failure for good, the ones to embed |
| `BatchOutcomes.ReturnedStatus` | app/document_ai/embedding/executor.py:503-677 | the status each kind of chunk ends in when the call returns |
| `BatchOutcomes.SavedIffSucceeded` | app/document_ai/embedding/executor.py:577-590 | an embedding is saved for exactly the chunks reported as succeeded, one each |
| `BatchOutcomes.EmbeddableEnds` | app/document_ai/embedding/executor.py:577-674 | a chunk to embed ends completed, saved and succeeded, or failed, unsaved and reported as failed, exactly as the model did |
| `BatchOutcomes.RaisedLeaves` | app/document_ai/embedding/executor.py:503-677 | a call that raises saves nothing and marks no document; the chunks it looked at keep what sorting decided, and the ones to embed are still processing |
| `BatchOutcomes.ReadyIffFinished` | app/document_ai/embedding/executor.py:234-256 | over every run a document not embedded at the start is marked ready exactly while all its chunks are completed |
| `BatchOutcomes.PublishedIff` | app/document_ai/embedding/executor.py:171-191 | which batches the broker has after a planning call, in terms of the dispatch that fails and whether it was taken |
| `BatchOutcomes.PlanResultMeaning` | app/document_ai/embedding/executor.py:160-214 | a queued result leaves every claimed chunk processing and deliverable; a dispatch error names exactly the chunks pending again; any other ending leaves all of them processing |
| `BatchOutcomes.ClaimsCountSelected` | app/document_ai/embedding/executor.py:139-163 | planning claims each selected chunk once and records nothing else |
| `Paths.RStripSlash` | app/files/models.py:309 | the result is a prefix that does not end in a slash |
| `Paths.ReplaceAbsent` | app/files/models.py:358-368 | replacing a string that does not occur changes nothing |
| `Paths.ReplacePresent` | app/files/models.py:358-368 | replacing a string that occurs by another one always changes something |
| `PathTree.StoredIsSpelled` | app/files/models.py:307-311 | in an indexed table every stored path equals the path spelled by the parent chain |
| `PathTree.PrefixTestIsAncestry` | app/files/models.py:345-346 | without slashes in names the prefix test on paths holds exactly if the target lies strictly below the moved node, given the index and unique paths |
| `PathTree.IndexedHasNoCycle` | app/files/models.py:307-311 | an indexed table has no cycle in its parent links |
| `PathTree.FollowsIffNoRepeat` | app/files/models.py:358-368 | the bulk update gives a descendant its new path exactly if the old path plus slash occurs once in its path |
| `PathTree.FoundIsBelow` | app/files/models.py:358-368 | if the index holds after the update, every row it found lies below the moved node |
| `PathTree.MoveKeepsIndexIff` | app/files/models.py:332-376 | names may hold slashes: a move keeps every stored path equal to its spelled path if and only if no update takes place, or each row it finds lies below the node without repeating its path, and the new name ends in no slash if there is such a row |
| `PathTree.SlashFreeMoveKeepsIndexIffNoRepeat` | app/files/models.py:332-376 | without slashes in names: if and only if no update takes place or no path below the node repeats its path |
| `StaleMoves.StaleMoveKeepsIndexIff` | app/files/models.py:332-376 | a move by an object whose path is not its row path any more keeps the index if and only if the children already fit the new path and the update finds no other row |
| `StaleMoves.BulkMoveTearsNested` | app/files/api_v1/file_views.py:356-366 | for all tables: when a folder and a node below it are moved to one target by objects loaded beforehand, the second move breaks the index if that node has a child |
| `PathTreeRuns.BulkMoveLeavesChildBehind` | app/files/api_v1/file_views.py:356-366 | a concrete selection of a folder and its child for which that happens |
| `StaleMoves.HarmlessMoveKeepsIndex` | app/files/models.py:332-376 | fresh or stale, slashes or not: a harmless move keeps the index |
| `PathTreeRuns.RunsStayIndexed` | app/files/models.py:307-376 | over every sequence of creates, deletes and moves by fresh or stale objects in which every success is safe, the index holds |
| `PathTreeRuns.RunsStayIndexedIffSafe` | app/files/models.py:307-376 | the index holds throughout a run if and only if every operation that succeeds in it is safe |
| `PathTreeRuns.RunsHaveNoCycle` | app/files/models.py:342-346 | no such sequence closes a cycle in the parent links |
| `PathCycles.MoveClosesCycleIff` | app/files/models.py:332-376 | in any table without cycles, indexed or not, a successful move closes a cycle if and only if the moved node is an ancestor of the target |
| `PathTreeRuns.RepeatedSegmentAllowsCycle` | app/files/models.py:358-368 | a concrete tree where a rename with a repeated segment breaks the index and the next move closes a cycle |
| `PathTreeRuns.SlashInNameBreaksIndex` | app/files/api_v1/file_views.py:211-240 | a concrete tree where a name containing a slash makes an unrelated rename rewrite the node |
| `PathTreeRuns.SlashEndedFolderLosesChildren` | app/files/models.py:307-376 | for all tables: a folder whose name ends in a slash loses its children when it moves under another path |
| `MoveOutcomes.RefusalMeaning` | app/files/models.py:339-346 | for an object in step with its row, no slashes in names: another workspace, the node itself, or exactly the folders strictly below it are refused as targets |
| `MoveOutcomes.MoveSucceedsIff` | app/files/models.py:332-376 | a move succeeds if and only if its target is acceptable, nothing faults, the new path is free and the rows below keep apart |
| `MoveOutcomes.PlainMoveSucceedsIff` | app/files/models.py:332-376 | when no path below the node repeats it: exactly if the target is acceptable, nothing faults and the new path is free |
| `MoveOutcomes.SuccessChangesOnlySo` | app/files/models.py:347-371 | a success gives the node the name and parent asked for, or keeps its own, and of every other row changes at most the path |
| `MoveOutcomes.CreateMeaning` | app/files/models.py:307-330 | a new node is refused for a folder of another workspace and else added under its own path exactly if that is free |
| `PathTreeRuns.RepeatedSegmentCollides` | app/files/models.py:358-371 | a concrete tree where a move to a free path fails, because two rows below are given the same path |
| `NodeObject.LoadedNode.RefuseTarget` | app/files/models.py:339-346 | the three checks on the target, in order, made with the path the object holds |
| `NodeObject.LoadedNode.SaveMoved` | app/files/models.py:356-371 | bulk update and save happen together or not at all; a path already taken makes them fail |
| `NodeObject.LoadedNode.Move` | app/files/models.py:332-376 | object fields and table change together as the move says, for an object in step with its row or not; on any error both are as before, on success they are in step |
| `Planner.BytesToMbIsMonotone` | app/llm_installation/planner.py:413-416 | the rounded, clamped KV size grows with the bytes |
| `Planner.KvIsMonotone` | app/llm_installation/planner.py:410-416 | the KV cache never shrinks as parallelism grows |
| `Planner.PoolFit` | app/llm_installation/planner.py:546-578 | the reason-collecting loop returns the worst verdict of the pools |
| `Planner.Combine` | app/llm_installation/planner.py:601-606 | the combined status is the worse of the two |
| `Planner.WorstPoolMeaning` | app/llm_installation/planner.py:559-578 | FIT exactly if every pool has its headroom, NOFIT exactly if some pool is exceeded |
| `Planner.UnforcedIsSafeAndMaximal` | app/llm_installation/planner.py:505-516 | an unforced placement with a GPU layer leaves 25% headroom on GPU 0, and one more layer would exceed the safe capacity unless all are placed |
| `Planner.FirstGpuVerdict` | app/llm_installation/planner.py:502-516 | an unforced placement with a layer is FIT on GPU 0; a forced single layer after zero is never FIT there |
| `Planner.LayersAreAntitone` | app/llm_installation/planner.py:500-508 | a larger KV cache never leaves more layers on the GPU |
| `PlannerProperties.CpuConserves` | app/llm_installation/planner.py:437-453 | CPU placement holds weights, cache and overhead exactly once |
| `PlannerProperties.OffloadConservesIffGpu` | app/llm_installation/planner.py:492-543 | partial offload conserves weights and cache, despite rounding up and clamping, if and only if there is a GPU, or the cache stays in RAM and no layer is forced |
| `PlannerProperties.SplitSumsToTotal` | app/llm_installation/planner.py:456-460 | the even split adds up to the total |
| `PlannerProperties.SplitIsFairest` | app/llm_installation/planner.py:456-460 | no other integer split has a smaller largest share |
| `PlannerProperties.VllmConserves` | app/llm_installation/planner.py:463-489 | vLLM placement conserves weights and cache, and RAM plus all VRAM adds up to them and the fixed overheads, one set of GPU overheads for each GPU |
| `PlannerProperties.StatusIsMonotone` | app/llm_installation/planner.py:837-915 | the memory verdict never improves as parallelism grows, for either backend and KV placement |
| `PlannerProperties.VramIsNotMonotone` | app/llm_installation/planner.py:500-516 | a concrete model whose VRAM need shrinks when parallelism doubles |
| `PlannerSearch.ScanAppend` | app/llm_installation/planner.py:802-946 | going through two lists one after the other is going through their concatenation |
| `PlannerSearch.ScanIsFirst` | app/llm_installation/planner.py:802-946 | the scan keeps the first fitting combination, else the first risky one |
| `PlannerSpace.FirstMeaning` | app/llm_installation/planner.py:802-946 | the first combination with a verdict is one that has it, and none before it has |
| `PlannerSearch.PrunedHasNothing` | app/llm_installation/planner.py:841-842 | when the baseline for one sequence is NOFIT, scanning all its parallelisms changes nothing |
| `PlannerSearch.SearchParallel` | app/llm_installation/planner.py:843-945 | the inner while loop scans every parallelism from the cap down |
| `PlannerSearch.SearchPlaces` | app/llm_installation/planner.py:811-842 | the loop over KV placements, prune included, scans every combination |
| `PlannerSearch.SearchContexts` | app/llm_installation/planner.py:804-805 | the loop over windows scans every combination |
| `PlannerSearch.PlanLlamaCpp` | app/llm_installation/planner.py:788-946 | the pruned nested search returns exactly what exhaustive search over all combinations returns, and so the most preferred offered combination that fits, else the most preferred risky one |
| `PlannerSearch.ReportedStatusIsTrue` | app/llm_installation/planner.py:802-946 | without a preserved status the plan carries the verdict it deserves; FIT means headroom in every pool and on disk; RISKY means nothing fits |
| `PlannerPreference.ContextsAreOffered` | app/llm_installation/planner.py:774-785 | the windows searched are the preset ones within the model and the configured cap, or that cap itself if all are larger |
| `PlannerPreference.AllCombosAreOffered` | app/llm_installation/planner.py:795-843 | the combinations searched are exactly those offered by preset, caps and backend, each before every one it is preferred to: more precise cache, larger window, cache in VRAM, more sequences |
| `PlannerPreference.ExhaustiveKeeps` | app/llm_installation/planner.py:788-946 | the plan is the most preferred offered combination that fits, else the most preferred risky one; a preserved FIT refuses a risky plan and a preserved verdict is the one reported; without either a diagnostic plan is returned |
| `PlannerPreference.RamOnlyIfVramDoesNotFit` | app/llm_installation/planner.py:805-811 | a plan with its cache in RAM on an offload backend means that with that cache type and window no parallelism fits with the cache in VRAM |
| `PlannerPreference.BetterNeverFits` | app/llm_installation/planner.py:802-946 | no offered combination preferred to the plan fits; if the plan is risky, each of them is NOFIT |
| `PlannerFigures.KvIsNearest` | app/llm_installation/planner.py:410-416 | the KV estimate is the nearest number of megabytes to its bits, ties to even, and at least one |
| `PlannerFigures.PoolStatusMeaning` | app/llm_installation/planner.py:546-578 | a pool is FIT exactly if 1.25 times the need is there, NOFIT exactly if the need is not |
| `PlannerFigures.DiskStatusMeaning` | app/llm_installation/planner.py:581-598 | a known disk requirement is FIT exactly with 15% to spare; an unknown one always |
| `PlannerFigures.JudgedLayersMeaning` | app/llm_installation/planner.py:492-516 | as many layers go on the GPU as fit with the fixed part into four fifths of the first GPU, and one where none does |
| `PlannerFigures.OffloadPlacementMeaning` | app/llm_installation/planner.py:492-543 | weights of the GPU layers rounded up and all GPU overheads on the first GPU, the cache where asked, the rest of the weights in RAM |
| `PlannerFigures.DiagnosticMeaning` | app/llm_installation/planner.py:947-967 | the diagnostic plan holds one sequence of 4096 tokens with the full cache, in VRAM on an offload backend |
| `Lifecycle.ResumeKeepsPointer` | app/llm_installation/runtime_lifecycle.py:463-632 | resume never moves the pointer; a successful resume leaves a running, promoted container of that generation |
| `Lifecycle.FailedSwitchRestoresOriginal` | app/llm_installation/runtime_lifecycle.py:706-746 | if the original was renamed out and back, a failed apply leaves it under its name, and the restart decides whether it runs and the earlier status is back |
| `Lifecycle.OriginalSurvivesIff` | app/llm_installation/runtime_lifecycle.py:680-720 | after a failed apply the original still exists if and only if the inspection told of it and its rename out worked, or neither removal of the name did |
| `Lifecycle.SilentInspectLosesOriginal` | app/llm_installation/runtime_lifecycle.py:660-720 | when inspection gives no answer a failed apply whose removals work leaves no container at all |
| `Lifecycle.OriginalSurvivesResumeIff` | app/llm_installation/runtime_lifecycle.py:463-632 | exactly when a failed resume keeps the owned container under the name |
| `Lifecycle.CommitFailureLeaves` | app/llm_installation/runtime_lifecycle.py:694-697 | when the commit raises: the active generation stays, the status says starting, the promoted candidate runs under the name, and an original renamed out stays under the backup name |
| `Lifecycle.RolledBackMeansOriginalIff` | app/llm_installation/runtime_lifecycle.py:718-730 | a reported rollback means that the original runs exactly if it was renamed back, and otherwise that the failed candidate runs |
| `Lifecycle.CandidateCanPassAsRestored` | app/llm_installation/runtime_lifecycle.py:718-730 | a concrete failure pattern in which the failed candidate is reported as the restored original |
| `Lifecycle.OtherNamesUntouchedByApply` | app/llm_installation/runtime_lifecycle.py:634-746 | no apply changes a container under another name, not even one holding the backup name already |
| `Lifecycle.OtherNamesUntouchedByResume` | app/llm_installation/runtime_lifecycle.py:463-632 | no resume changes a container under another name |
| `Lifecycle.ForeignSurvivesApplyIff` | app/llm_installation/runtime_lifecycle.py:660-684 | a container under the runtime name that Dotori does not own is left alone by apply unless the inspection fails and the removal works |
| `Lifecycle.ForeignSurvivesResumeIff` | app/llm_installation/runtime_lifecycle.py:463-632 | the same for resume |
| `Lifecycle.LeftoverBackupDisablesRollback` | app/llm_installation/runtime_lifecycle.py:694-721 | after a switch whose last removal failed, the next failing switch loses its original as soon as a removal works |
| `LifecycleOutcomes.SwitchOutcomeIff` | app/llm_installation/runtime_lifecycle.py:634-746 | exactly when a switch is refused, succeeds or raises, and when a failed one reports a rollback, in terms of the containers and the failures met |
| `LifecycleOutcomes.SwitchStatusMeaning` | app/llm_installation/runtime_lifecycle.py:684-738 | the status each ending leaves: unavailable with the code of the failure when nothing was rolled back |
| `LifecycleOutcomes.SuccessLeaves` | app/llm_installation/runtime_lifecycle.py:693-704 | all containers after a success: the candidate under the name, the stopped original as backup only if its removal failed |
| `LifecycleOutcomes.FailureWithoutBackupLeaves` | app/llm_installation/runtime_lifecycle.py:706-720 | who holds the name after a failure with nothing set aside |
| `LifecycleOutcomes.ResumeOutcomeIff` | app/llm_installation/runtime_lifecycle.py:463-632 | a resume succeeds exactly if it may begin, the container comes up and every check passes; a refused one changes nothing, any other failure is written to the status with its code |
| `LifecycleOutcomes.ResumedContainer` | app/llm_installation/runtime_lifecycle.py:528-632 | the container a resume that came up leaves under the name |
| `LifecycleOutcomes.StopMeaning` | app/llm_installation/runtime_lifecycle.py:748-758 | a stop that sees an owned container leaves it gone if asked for and removed, else stopped as its command worked; it reports failure exactly for a container it does not own |
| `LifecycleOutcomes.HealthyWasChecked` | app/llm_installation/runtime_lifecycle.py:463-758 | over every sequence: a healthy status is the initial one, or some switch to that generation or resume of it passed every check |
| `LifecycleOutcomes.FailureIsNeverHealthy` | app/llm_installation/runtime_lifecycle.py:463-758 | after a switch that failed without a way back or raised, or a failed resume, no generation is called healthy |
| `LifecycleRuns.PointerIsLastValidated` | app/llm_installation/runtime_lifecycle.py:463-758 | over every sequence of switches, resumes and stops with any failures, the active configuration is the generation of the last validated switch |
| `LifecycleRuns.ValidatedPassedChecks` | app/llm_installation/runtime_lifecycle.py:684-704 | and that generation came from a switch in the sequence whose candidate passed every check |
| `LifecycleRuns.OtherNamesUntouched` | app/llm_installation/runtime_lifecycle.py:463-758 | containers under other names come through every sequence unchanged |
| `LifecycleRuns.ForeignIsNeverTouched` | app/llm_installation/runtime_lifecycle.py:463-758 | while inspection answers, a container Dotori does not own under the runtime name survives every sequence and blocks every switch |
| `LifecycleRuns.AgreementSurvives` | app/llm_installation/runtime_lifecycle.py:463-758 | if inspection, renames, removals and the commit work, then however candidates fail the container under the runtime name is always of the active generation, and no backup is left; resume is called for the active generation, as `install.py:722` does |
| `LifecycleRuns.CommitFailureBreaksAgreementIff` | app/llm_installation/runtime_lifecycle.py:694-697 | if only the commit fails, that agreement is lost unless no container was there and the candidate is of the active generation |
| `RuntimeManager.RuntimeLifecycleManager.RunCandidate` | app/llm_installation/runtime_lifecycle.py:371-424 | clears the name, runs the candidate, writes the starting status on success |
| `RuntimeManager.RuntimeLifecycleManager.MoveAside` | app/llm_installation/runtime_lifecycle.py:678-682 | stops and renames an owned container; reports whether the rename worked |
| `RuntimeManager.RuntimeLifecycleManager.RestorePrevious` | app/llm_installation/runtime_lifecycle.py:718-728 | clears the name, renames back and starts whatever holds the name |
| `RuntimeManager.RuntimeLifecycleManager.Apply` | app/llm_installation/runtime_lifecycle.py:634-746 | the command sequence changes containers, status and pointer as the switch says |
| `RuntimeManager.RuntimeLifecycleManager.Resume` | app/llm_installation/runtime_lifecycle.py:463-632 | the command sequence of resume, with its early returns |
| `RuntimeManager.RuntimeLifecycleManager.Stop` | app/llm_installation/runtime_lifecycle.py:748-758 | stops and removes only an owned container |
| `Calibration.SelectServingConcurrency` | app/llm_installation/calibration.py:279-348 | the selection with its early exit equals the specification, errors included |
| `Calibration.DecideLoop` | app/llm_installation/calibration.py:296-341 | the loop decides step by step and stops at the first step turned down |
| `Calibration.OnlyLastTurnedDown` | app/llm_installation/calibration.py:338-339 | only the last decision can be a refusal |
| `Calibration.GainsCompound` | app/llm_installation/calibration.py:322-325 | under any policy with a non-negative gain and ratios of at least 1, the k-th accepted step has at least (1+g)^(k-1) times the baseline throughput |
| `Calibration.AcceptedMeetsBudgets` | app/llm_installation/calibration.py:314-320 | every accepted step has its figures and meets both p95 budgets relative to the baseline |
| `Calibration.PresetGainsCompound` | app/llm_installation/calibration.py:28-36 | the same for the three presets with their own constants |
| `Calibration.SelectMeasured` | scripts/calibrate_llm_concurrency.py:694-700 | on a measured prefix the partial selection accepts its last step or already equals the selection on all steps |
| `Calibration.MeasureAndSelect` | scripts/calibrate_llm_concurrency.py:604-704 | the candidate loop, selecting again after every measurement, ends with the selection made once on all steps |
| `Calibration.EarlierDecisionsStand` | scripts/calibrate_llm_concurrency.py:694-700 | selecting on a longer prefix never changes an earlier decision |
| `CalibrationOutcomes.SelectErrors` | app/llm_installation/calibration.py:284-290 | no steps, and a smallest concurrency other than one, are the errors |
| `CalibrationOutcomes.DecisionMeaning` | app/llm_installation/calibration.py:298-341 | by increasing concurrency, each decision accepts exactly a whole step within the budgets of its preset, from 1.15 to 1.40 times the first step, and with a growth of 1.08 or 1.10, and reports just what speaks against it; they stop at the first refusal |
| `CalibrationOutcomes.SelectedConcurrency` | app/llm_installation/calibration.py:296-348 | the selected concurrency is that of the last step before the first unacceptable one |
| `Percentiles.PercentileIsMonotone` | app/llm_installation/calibration.py:154-168 | a higher quantile never reports a smaller value |
| `Percentiles.PercentileIgnoresOrder` | app/llm_installation/calibration.py:155 | the order of the values does not matter |
| `Percentiles.PercentileSplitsTheValues` | app/llm_installation/calibration.py:161-168 | more than (n-1)q of the values are at most the percentile and more than (n-1)(1-q) at least |
| `MeasurementOutcomes.PercentileMeaning` | app/llm_installation/calibration.py:154-168 | no value for no values, an error for a quantile outside [0, 1], else the linear interpolation between the two ranks around (n-1)q |
| `StepSummary.SummarizeRounds` | app/llm_installation/calibration.py:193-220 | summing tokens round by round counts every record once; the throughput is known exactly if every record reported and time passed |
| `StepSummary.RoundsPartition` | app/llm_installation/calibration.py:196-210 | the rounds partition the records: token sums over rounds equal sums over records |
| `StepSummary.WindowsFitElapsed` | app/llm_installation/calibration.py:200-202 | if rounds follow each other the windows never add up to more than the elapsed time |
| `StepSummary.ThroughputIsAtLeastOverall` | app/llm_installation/calibration.py:200-217 | then the throughput is at least tokens over elapsed time |
| `MeasurementOutcomes.WindowMeaning` | app/llm_installation/calibration.py:200-202 | the window of a round runs from its first start to its last completion |
| `MeasurementOutcomes.WindowsAdd` | app/llm_installation/calibration.py:196-202 | each round adds its own window |
| `MeasurementOutcomes.RecordCounts` | app/llm_installation/calibration.py:203-208 | each record adds its tokens once, wherever it stands |
| `MeasurementOutcomes.ThroughputMeaning` | app/llm_installation/calibration.py:211-216 | the throughput is known exactly if there are successful requests, all reported their tokens and time passed in some round; times the windows it is the tokens |
| `Generations.ReplaceArgMeaning` | app/llm_installation/config_store.py:222-230 | only the slot after the first occurrence of the flag changes; the errors are exactly a missing flag and a flag at the end |
| `Generations.LastValueWins` | app/llm_installation/config_store.py:222-230 | setting a flag twice is setting it once, and no other slot changes |
| `Generations.RestagingDoesNotPileUp` | app/llm_installation/config_store.py:233-352 | staging from an activated candidate gives the generation that staging from its predecessor would have given, up to the recorded source |
| `Generations.RunsStayAnchored` | app/llm_installation/config_store.py:317-336 | over every run each recorded original exists and is not running, and each running candidate records one |
| `Generations.RestoreNeedsOneSwitch` | scripts/calibrate_llm_concurrency.py:405-439 | from such a store one successful switch reaches the recorded original; the loop fails only if that switch fails |
| `Generations.CrashIsRecoverable` | scripts/calibrate_llm_concurrency.py:405-439 | wherever a chain of calibrations is cut off, the 16-round loop ends after at most one switch and never reports a chain too deep or without source |
| `Generations.CalibrationKeepsOriginal` | app/llm_installation/config_store.py:318-321 | all candidates of one calibration run record the same original |
| `Generations.RecoveryReturnsToStartIff` | scripts/calibrate_llm_concurrency.py:411-438 | recovery returns to the generation the calibration started from if and only if that one was not itself calibrated; otherwise to the one before the first calibration |
| `GenerationOutcomes.DigitsReadBack` | app/llm_installation/config_store.py:230 | a number written into the arguments reads back |
| `GenerationOutcomes.StagedArgs` | app/llm_installation/config_store.py:294-303 | the staged arguments say the concurrency and the context times the concurrency, after the flags of the runtime; no other argument changes |
| `GenerationOutcomes.StagedGeneration` | app/llm_installation/config_store.py:305-352 | what staging records in its one new generation; everything else stays |
| `GenerationOutcomes.StageRefusedIff` | app/llm_installation/config_store.py:246-303 | exactly when and why staging is refused |
| `GenerationOutcomes.ActiveWasSwitchedTo` | app/llm_installation/config_store.py:206-219 | over every run the active generation is the first one or a switch to it worked |
| `GenerationOutcomes.RestoreStopsAt` | scripts/calibrate_llm_concurrency.py:412-437 | when the loop stops without a switch and with which error: no active generation, a settled one, one that points back nowhere or to itself, a failing switch |
| `GenerationOutcomes.RestoreFollowsChain` | scripts/calibrate_llm_concurrency.py:405-439 | from any chain of interrupted calibrations the loop reaches its settled end if that is fewer than the rounds away, and otherwise stops there with an error |
| `ConfigStore.ReplaceRuntimeArg` | app/llm_installation/config_store.py:222-230 | in place on an array: replaces the value after the first occurrence of the flag, or reports why not and changes nothing |
| `ConfigStore.RuntimeConfigStore.StageCalibration` | app/llm_installation/config_store.py:233-352 | the checks in order; on success exactly one new generation is added |
| `ConfigStore.RuntimeConfigStore.Activate` | app/llm_installation/config_store.py:206-219 | the pointer moves exactly when the switch worked |
| `ConfigStore.RuntimeConfigStore.RestoreInterrupted` | scripts/calibrate_llm_concurrency.py:405-439 | the bounded loop does what the restore specification says |
| `StableSort.SortedIsOrdered` | app/llm_installation/selection.py:115-116 | the sort is ordered by key and stable, with reverse too |
| `StableSort.SortedElements` | app/llm_installation/selection.py:115-116 | the sort keeps the elements |
| `StableSort.OrderedIsUnique` | app/llm_installation/selection.py:115-116 | a strict order has one arrangement |
| `Ranking.RankIsRankedOrder` | app/llm_installation/selection.py:110-116 | the two-pass sort orders by key descending, then id ascending, and keeps the elements |
| `Ranking.RankingIsUnique` | app/llm_installation/selection.py:110-116 | any arrangement of the candidates in that order is the ranking |
| `Ranking.RankIgnoresCatalogOrder` | app/llm_installation/selection.py:110-116 | with distinct ids a permuted catalog gives the same ranking |
| `Ranking.RankManualCandidates` | app/llm_installation/selection.py:119-136 | the splitting loop shows FIT candidates ranked, then RISKY ones ranked, and the rest |
| `Ranking.SelectIgnoresCatalogOrder` | app/llm_installation/selection.py:139-257 | the whole selection result is invariant under permutations of the catalog |
| `Ranking.AcceptedIffDisplayed` | app/llm_installation/selection.py:171-194 | in manual mode an id is accepted as valid exactly if it appears in the displayed ranking |
| `Ranking.AutomaticWinner` | app/llm_installation/selection.py:218-249 | automatic mode selects a FIT candidate no other FIT candidate outranks; a RISKY one only if none is FIT and the risk is confirmed |
| `RankingOutcomes.RankingIff` | app/llm_installation/selection.py:92-116 | an arrangement is the ranking if and only if each candidate outranks those after it: by the order of the preset of figures, known before unknown, larger before smaller, ids last |
| `RankingOutcomes.AutomaticMeaning` | app/llm_installation/selection.py:218-257 | the whole outcome of automatic selection: the best FIT candidate, else the best RISKY one if confirmed, and the ranking shown |
| `RankingOutcomes.ManualMeaning` | app/llm_installation/selection.py:171-216 | the whole outcome of manual selection, in terms of the candidate asked for and the confirmation |
| `Retrieval.SumIsAtMostIdeal` | scripts/score_retrieval.py:29-38 | for any non-decreasing gain that is 0 at 0 and any positive non-increasing discount, an arrangement of a sub-collection of the grades scores at most the k best in descending order |
| `Retrieval.IdealIsDescending` | scripts/score_retrieval.py:34 | the ideal ranking is the grades in descending order |
| `Retrieval.DistinctIsDominated` | scripts/score_retrieval.py:66-69 | distinct names use every judgement at most once |
| `Retrieval.NdcgIsBounded` | scripts/score_retrieval.py:33-38 | with distinct names among the first k, nDCG@k lies between 0 and 1 |
| `Retrieval.RepeatedNameExceedsOne` | scripts/score_retrieval.py:63-74 | if a name repeats among the first k, some judgements give an nDCG@k above 1 |
| `Retrieval.NdcgBoundedIffDistinct` | scripts/score_retrieval.py:33-38 | nDCG@k is at most 1 for all judgements if and only if the first k names are distinct |
| `Retrieval.RecallBoundedIffPositiveThreshold` | scripts/score_retrieval.py:41-45 | with distinct names recall@k is at most 1 for all queries if and only if the threshold is positive |
| `RetrievalOutcomes.GainIsExponential` | scripts/score_retrieval.py:30 | gains grow as the powers of two, less one |
| `RetrievalOutcomes.DcgGrows` | scripts/score_retrieval.py:29-30 | every result adds its gain at its own place |
| `RetrievalOutcomes.NdcgMeaning` | scripts/score_retrieval.py:33-38 | nDCG is missing exactly if nothing of value could be shown; times the score of the best first k it is the score of the ranking; the best ranking scores 1 |
| `RetrievalOutcomes.RecallMeaning` | scripts/score_retrieval.py:41-45 | recall is missing exactly if nothing is relevant; times the relevant judgements it is the relevant results among the first k |
| `RetrievalOutcomes.RankedGradeMeaning` | scripts/score_retrieval.py:66-67 | a result has the grade its name was judged with, or zero |
| `Membership.RunsStayGoverned` | app/workspaces/services.py:27-217 | over every run of the services each existing workspace has an active admin, references resolve, and no code is used beyond its limit |
| `Membership.RoleChangeRefusedIffUngoverned` | app/workspaces/services.py:145-165 | a role change of an active member by an admin is refused exactly if it would leave the workspace without an active admin |
| `Membership.RemovalRefusedIffUngoverned` | app/workspaces/services.py:168-186 | the same for removing a member |
| `Membership.DeletionRefusedIffUngoverned` | app/workspaces/services.py:189-217 | deleting an account is refused exactly if a surviving workspace would lose its last active admin |
| `Membership.DeletionRemovesExactly` | app/workspaces/services.py:189-217 | a deletion removes exactly the workspaces where the user is the only active member, and no other user seat elsewhere |
| `Membership.AdminsAreMadeByAdmins` | app/workspaces/services.py:96-109 | nobody becomes an active admin except by creating the workspace or through an active admin of it |
| `Membership.JoiningNeedsConsent` | app/workspaces/services.py:82-142 | nobody becomes an active member except by their own creation, accepted invitation or redeemable code |
| `Membership.BystandersGainNothing` | app/workspaces/services.py:27-217 | over every run a user who takes no step gains no active seat |
| `Membership.NobodyIsPromotedUnasked` | app/workspaces/services.py:27-217 | over every run nobody becomes an admin of an existing workspace without a role change to admin for them |
| `Membership.MemberExhaustsCode` | app/workspaces/services.py:124-141 | one active member can use a limited code up alone: after as many redemptions as were left no seat has changed and nobody can redeem it |
| `Membership.RedemptionsAreCounted` | app/workspaces/models.py:115-122 | over every run the use count counts the successful redemptions, which never exceed the limit even if the code is deleted on the way |
| `MembershipOutcomes.RefusedIff` | app/workspaces/services.py:27-217 | which fault each service raises, in the order of its checks, and that it is served otherwise; the last-admin guards said of the seats |
| `MembershipOutcomes.SeatMeaning` | app/workspaces/services.py:27-217 | what each served operation leaves in every seat: accepting an invitation and redeeming a code seat the user as a member, declining seats nobody, no service touches another seat |
| `MembershipOutcomes.CodeMeaning` | app/workspaces/services.py:49-142 | what each served operation leaves of every invite code |
| `MembershipOutcomes.InvitationMeaning` | app/workspaces/services.py:59-110 | what each served operation leaves of every invitation |
| `MembershipOutcomes.WorkspaceMeaning` | app/workspaces/services.py:27-217 | workspaces come with a creation and go with their only active member |
| `WorkspaceServices.WorkspaceDatabase.CreateWorkspace` | app/workspaces/services.py:27-42 | adds the workspace with its creator as active admin |
| `WorkspaceServices.WorkspaceDatabase.IssueInviteCode` | app/workspaces/services.py:49-56 | only an active admin issues codes |
| `WorkspaceServices.WorkspaceDatabase.InviteExistingUser` | app/workspaces/services.py:59-79 | one open invitation per user; active members are refused |
| `WorkspaceServices.WorkspaceDatabase.RespondToInvitation` | app/workspaces/services.py:82-110 | only the invitee answers, once; accepting joins as member |
| `WorkspaceServices.WorkspaceDatabase.JoinWorkspace` | app/workspaces/services.py:96-109 | an active row is left alone; a missing or waiting row becomes an active member |
| `WorkspaceServices.WorkspaceDatabase.RedeemInviteCode` | app/workspaces/services.py:113-142 | joins and counts the use; the last use deactivates the code |
| `WorkspaceServices.WorkspaceDatabase.ChangeMemberRole` | app/workspaces/services.py:145-165 | the checks in order, then the new role |
| `WorkspaceServices.WorkspaceDatabase.RemoveTeamMember` | app/workspaces/services.py:168-186 | the checks in order, then the row is gone |
| `WorkspaceServices.WorkspaceDatabase.SoloWorkspacesOf` | app/workspaces/services.py:197-215 | the loop over the seats, in any order, finds the solo workspaces or the reason to refuse |
| `WorkspaceServices.WorkspaceDatabase.DeleteAccount` | app/workspaces/services.py:189-217 | refused, or solo workspaces and user deleted with everything that refers to them |

## Left out

- HTTP, Celery transport, job receipts, snapshot validation, views other than the rename view, admin, user interface.
- Docker itself, subprocesses, health and endpoint probes, image builds, hardware detection, file I/O, clocks, logging: parameters or opaque values.
- Asynchronous exceptions in `acquire` outside its wait, and `snapshot()`; unknown request types.
- Claims: the single-chunk path `embed_document_chunk_sync`, text truncation and normalisation, error messages and metrics, a crash in the middle of marking chunks failed, a planning call that fails before its claim commits (it changes nothing), the retry counter (the run says whether retries are left). The marking of a successful batch is one transaction and one step.
- StaleMoves.StaleMoveKeepsIndexIff: the exact condition is stated for slash-free names, because with slashes a rewritten child can fit by coincidence; that the condition suffices is proved for all tidy names (`HarmlessMoveKeepsIndex`). `RunsStayIndexedIffSafe` excludes the same combination.
- PathTree.MoveKeepsIndexIff: the table holds no empty names and none that end in a slash; the new name may be any. Folders that already end in a slash are covered by `SlashEndedFolderLosesChildren` in one direction.
- PathTree: the target folder is taken from its row (an object held for it could be stale too), an object whose row has been deleted (saving it would insert it again), path length limits (part of the `fault` parameter), the choice of a workspace in `save`.
- Planner: `_plan_vllm`, `select_runtime`, decode speed estimates, reasons and messages, the rounding of the weight estimate. The diagnostic plan built when nothing fits is not claimed to be NOFIT.
- Floating-point rounding and `round(..., 3)` of reported figures; NaN values; `log2` itself.
- StepSummary: filtering records by phase and success, latencies per token, resource samples.
- Generations: file contents other than the fields used, JSON errors, legacy generations, the retry of a whole calibration.
- Retrieval: negative cut-offs k.
- Membership: simultaneous transactions (the row locks there cover only the changed rows, so the invariant is stated for services taken as atomic steps), names, e-mails, who invited whom, changes made outside the services, foreign keys of other applications.
- WaiterHeap: `heapq` is the standard library's; the sift loops are the usual ones, so the contracts and not the comparisons are what matters.
