# Verified models of RFSN's telemetry, decoding and agent control logic

This project models, in Dafny, the parts of the repository whose correctness rests on more than
one function at a time, and proves what they promise.

| files | models |
|---|---|
| `TelemetryMachine`, `TelemetrySafety`, `TelemetryPolicy`, `TelemetryShutdown`, `TelemetryWriter`, `Subsequences` | the asynchronous telemetry writer: an interleaving step machine of writers, timer, worker and `stop`; its invariants over every run; what its backpressure policies mean; the exact condition for lossless shutdown; and the object itself, whose methods take the machine's steps |
| `EditDistance` | the rolling-row edit distance, against edit scripts |
| `PatchManager` | transactional patches: snapshot, apply, restore, rollback |
| `Attention` | causal attention, masked prefill against one-token decode, NumPy against MLX |
| `Decoding` | greedy and teacher-forced decoding and the first divergent token |
| `BatchPredictor`, `BatchSearch` | the least-squares latency predictor and its capped binary search |
| `TaskForest`, `TaskRegistry` | the orchestrator's task forest, as a value and as mutable objects |
| `Planner` | the dependency scheduler and the repair plan |
| `Sparsity` | the per-profile sparsity controller and its profile keys |
| `BlockSelect` | sink, recent and fill block selection |
| `Chunking` | the overlapping chunk generator |
| `Arithmetic`, `Sequences`, `Wrappers` | shared facts of arithmetic and concatenation, and `Option` |

Numbers that are floats in the source are exact reals; integers are unbounded, as in Python.
File systems and dictionaries are maps; Python's `None` is `Option`. Ids, clocks, client outcomes
and injected failures are parameters, so every statement holds for all of them.

## Where the code does not do what its documentation suggests

- **Telemetry shutdown.** A worker that has seen the queue empty before the final flush of `stop`
  leaves without reading the last batch. `ShutdownDelivers` gives the exact condition,
  `LastBatchCanStayQueued` a run where the batch is left behind.
- **Backpressure.** Under drop-oldest, if the worker empties the queue between the failed put and the eviction, the new
  batch is dropped although there is room by then (`HeldBatch`).
- **Transactional patches.** Backups are filed under the path without its leading slashes, so `/a`
  and `a` share one. All-or-nothing holds exactly when no two existing files of different content
  share a backup (`RestoreUndoes`, `SharedBackupKeyClobbers`); canonical absolute paths never do
  (`CanonicalPathsAreFaithful`).
- **Rollback.** Reversing a delete that recorded no old content is refused: `rollback_patch` reports
  success exactly when every delete carries its content (`RollbackRestores`). The initial contents come
  back, whatever it reports, exactly when no file that was there at the start has a first delete without
  content (`RollbackRestoresIff`).
- **Causal mask.** A row ignores the keys and values it may not see exactly when there is something it may
  see. With more queries than keys the first rows have nothing, and become the plain average of every value
  (`IgnoresUnseenIff`, `RowWithoutHistoryLeaks`).
- **Batch recommendation.** When latency does not fall with size, ten halvings find the promised size for
  every target exactly up to a largest recorded batch of 511 (`IterationBoundIsExact`), and beyond that exactly
  when they probe it (`RisingMeetsIff`). When latency does not rise, they do exactly when nothing meets the
  target, or the largest recorded size meets it and is at most 511 (`FallingMeetsIff`); `FallingHistoryIsMissed`
  is a history where they do not. A window of 0 keeps the whole history, because `[-0:]` is the whole list
  (`WindowKeepsLast`).
- **Profile keys.** Names are joined by colons without escaping. Two different models can share a profile exactly when
  one name is the other continued by a colon (`ModelsShareIff`), and two different layers of one model exactly when one
  name is the other continued by a colon and a length bucket, alone or before another colon (`LayersShareIff`).
- **Chunking.** Without an overlap only the first chunk is generated (`LosslessIff`); with an
  overlap as large as the chunk the generator never ends (`EndsIff`).

## Model

| member | source | states |
|---|---|---|
| `TelemetrySafety.StepInv` | rfsn_v10/async_writer.py:111-222 | every enabled step of writers, timer, worker and `stop` keeps conservation, order, counters and batch shape |
| `TelemetrySafety.RunInv` | rfsn_v10/async_writer.py:111-272 | so does every run, from any state that satisfies the invariant |
| `TelemetrySafety.NothingInventedOrOvertaken` | rfsn_v10/async_writer.py:111-222 | in every reachable state, under both policies: accepted = written + dropped + pending as multisets and as counts, and what is written or pending, read in order, is a subsequence of what was accepted |
| `TelemetrySafety.OrderPerTask` | rfsn_v10/async_writer.py:151-175 | the same order property for the events of each task |
| `TelemetrySafety.MemoryBounded` | rfsn_v10/async_writer.py:62-75 | the queue never exceeds its size and pending events never exceed a fixed bound |
| `TelemetrySafety.EvictBalanced` | rfsn_v10/async_writer.py:125-134 | evicting the oldest entry, which by then may be the sentinel or already gone, loses exactly the events it counts |
| `TelemetrySafety.TryBatchBalanced` | rfsn_v10/async_writer.py:198-222 | one client attempt writes the whole batch, keeps it, or drops it and counts it |
| `TelemetryPolicy.OnlyTheWorkerTakes` | rfsn_v10/async_writer.py:111-222 | under the default policy, over every continuation of every run, entries leave the queue only by the worker's reads: after k of them all but the first k entries are still there, in front of whatever came since |
| `TelemetryPolicy.WorkerStaysUntilStop` | rfsn_v10/async_writer.py:177-196 | the worker never leaves before `stop` is called |
| `TelemetryShutdown.ShutdownDelivers` | rfsn_v10/async_writer.py:177-272 | with no write after the final flush and the worker gone, everything accepted is written or dropped if and only if the worker's last queue read came after the flush or the flush left nothing queued |
| `TelemetryShutdown.LastBatchCanStayQueued` | rfsn_v10/async_writer.py:177-254 | a concrete run of six steps in which the last batch is never read |
| `TelemetryShutdown.DeliveredIff` | rfsn_v10/async_writer.py:111-222 | in a state the invariant allows, nothing is pending exactly when the two counters add up to the accepted events |
| `TelemetryShutdown.WorkLeftStep` | rfsn_v10/async_writer.py:177-222 | after `stop` has begun, every worker step lowers a measure over queue entries and attempts left, and no other step but a write raises it |
| `TelemetryShutdown.WorkerHalts` | rfsn_v10/async_writer.py:177-269 | the worker takes at most that many more steps and then has left, even if the sentinel was evicted or never queued |
| `TelemetryShutdown.WorkerNeverBlocked` | rfsn_v10/async_writer.py:177-196 | the worker has an enabled step in every state but the final one |
| `TelemetryShutdown.HolderReleases` | rfsn_v10/async_writer.py:111-141 | a caller holds the lock for at most six queue operations, each possible at once, and no other thread's step delays it |
| `TelemetryWriter.SettleIsRun` | rfsn_v10/async_writer.py:111-175 | an undisturbed caller reaches a free lock by a run of at most six lock steps |
| `TelemetryWriter.UndisturbedFlush` | rfsn_v10/async_writer.py:111-141 | a run of a flush and lock steps up to the next free lock: with room the batch is queued and nothing is lost; on a full queue the drop-oldest policy loses exactly the oldest entry's events and queues the batch last, the default policy keeps the queue and loses exactly the batch |
| `TelemetryWriter.HeldBatch` | rfsn_v10/async_writer.py:122-141 | what becomes of a batch in hand from any point between two queue operations: a holder that evicts loses the oldest entry, or the batch itself if the worker has emptied the queue meanwhile |
| `TelemetryWriter.UndisturbedWrite` | rfsn_v10/async_writer.py:151-175 | likewise for a write: when there is room the event joins the open batch of its task, or starts the next one behind the queued old one, and a batch it fills is queued at once |
| `TelemetryWriter.StopIsRun` | rfsn_v10/async_writer.py:233-272 | what `Stop` does undisturbed is a run of the machine without writes or worker steps |
| `TelemetryWriter.SentOutcome` | rfsn_v10/async_writer.py:198-222 | a retry loop ends its batch in exactly one place: written if one of the remaining attempts succeeds, else dropped and counted as one failure |
| `TelemetryWriter.DrainedIsRun` | rfsn_v10/async_writer.py:177-222 | emptying the queue of a stopped writer is a run of worker steps that ends with the worker gone, for every outcome of every attempt |
| `TelemetryWriter.AsyncWriter.FlushCurrentBatch` | rfsn_v10/async_writer.py:111-141 | queues the batch when there is room; on a full queue replaces the oldest entry or drops the batch, as the policy says, and counts exactly the events lost |
| `TelemetryWriter.AsyncWriter.Write` | rfsn_v10/async_writer.py:151-175 | accepts the event; flushes a full batch or one of another task first, and the event's own batch when it is full |
| `TelemetryWriter.AsyncWriter.WriteBatchWithRetries` | rfsn_v10/async_writer.py:198-222 | takes the attempts until one succeeds or none is left; an empty batch changes nothing |
| `TelemetryWriter.AsyncWriter.WorkerLoop` | rfsn_v10/async_writer.py:177-196 | terminates once stopped, having taken the draining steps |
| `TelemetryWriter.AsyncWriter.Stop` | rfsn_v10/async_writer.py:233-272 | flushes, then queues the sentinel behind everything if there is room after the flush; a second call changes nothing |
| `EditDistance.EditDistance` | benchmarks/validate_generation_smoke.py:53-69 | the rolling-row program, with its three shortcuts, returns the recursive distance |
| `EditDistance.LevIsDistance` | benchmarks/validate_generation_smoke.py:53-69 | that distance is the minimum over all insert, delete and substitute scripts: some script attains it and none is shorter |
| `EditDistance.DistanceUnique` | benchmarks/validate_generation_smoke.py:53-69 | and it is the only such number |
| `EditDistance.ScriptNeverBeats` | benchmarks/validate_generation_smoke.py:53-69 | no script from a to b is shorter |
| `EditDistance.ScriptAttains` | benchmarks/validate_generation_smoke.py:53-69 | the script read off the table turns a into b in exactly that many edits |
| `EditDistance.LevZeroIffEqual` | benchmarks/validate_generation_smoke.py:53-60 | zero exactly for equal strings |
| `EditDistance.LevSymmetric` | benchmarks/validate_generation_smoke.py:53-69 | symmetric |
| `EditDistance.LevTriangle` | benchmarks/validate_generation_smoke.py:53-69 | satisfies the triangle inequality |
| `EditDistance.LevBounds` | benchmarks/validate_generation_smoke.py:53-69 | between the difference of the lengths and the longer length |
| `EditDistance.NormalisedEditDistance` | benchmarks/validate_generation_smoke.py:72-75 | times the longer length, or 1, it is the distance |
| `EditDistance.NormalisedIsFraction` | benchmarks/validate_generation_smoke.py:72-75 | lies in [0, 1] and is zero exactly for equal strings |
| `PatchManager.PatchManager.ApplyFileChange` | agent_core/patch_manager.py:77-137 | succeeds exactly when a modification finds its old content, an addition finds nothing, a deletion finds the content it names, and then writes or removes its own path; refusing changes nothing, and a failing operating-system call may leave anything at that path |
| `PatchManager.PatchManager.CreateRollbackSnapshot` | agent_core/patch_manager.py:184-196 | copies the existing files of the plan under their backup keys, later ones over earlier ones |
| `PatchManager.PatchManager.RestoreFromSnapshot` | agent_core/patch_manager.py:198-213 | puts each path of the plan back from its backup, or removes it |
| `PatchManager.PatchManager.TransactionalApply` | agent_core/patch_manager.py:215-233 | succeeds exactly when every change is accepted in turn without a fault, and then the files are the fold of the changes, for a plan that lists the differences to other files those files; on failure the files are as before if and only if the backups are faithful |
| `PatchManager.PatchManager.ApplyPatchPlan` | agent_core/patch_manager.py:139-182 | the same, recorded in the applied or in the failed list |
| `PatchManager.PatchManager.RollbackPatch` | agent_core/patch_manager.py:270-317 | refuses a failed patch; otherwise applies the reverse changes last to first and reports whether all went well |
| `PatchManager.DiffApplies` | agent_core/patch_manager.py:77-137 | a plan with one true change for each path two file systems differ in, in any order, applies and turns one into the other |
| `PatchManager.PlanAppliesIff` | agent_core/patch_manager.py:77-137 | a plan applies if and only if, each at its turn, modifications find the old content they name, additions find nothing, deletions find the content they name, no other kind occurs and no fault strikes |
| `PatchManager.BackupKeyIs` | agent_core/patch_manager.py:184-196 | a backup is filed under the path from its first character that is no slash |
| `PatchManager.RestoreUndoes` | agent_core/patch_manager.py:184-213 | restoring undoes any damage confined to the plan's paths, repeated paths included, if and only if no two files of different content share a backup |
| `PatchManager.CanonicalPathsAreFaithful` | agent_core/patch_manager.py:184-196 | canonical absolute paths never share a backup |
| `PatchManager.SharedBackupKeyClobbers` | agent_core/patch_manager.py:184-213 | a failing plan over `/a` and `a` after which restoring leaves `/a` with the text of `a` |
| `PatchManager.LastChangeWins` | agent_core/patch_manager.py:77-137 | a plan leaves each path it changes as the last change to it says |
| `PatchManager.OthersUntouched` | agent_core/patch_manager.py:77-137 | and leaves all other paths alone |
| `PatchManager.RollbackRestores` | agent_core/patch_manager.py:270-317 | after a successful apply with the plan's files untouched since, rollback reports success if and only if every delete carries its old content, and then the plan's files have their initial content or absence |
| `PatchManager.RollbackRestoresIff` | agent_core/patch_manager.py:270-317 | and whatever it reports, the plan's files have their initial content or absence back if and only if no file that was there at the start has a first delete without content |
| `PatchManager.RollbackLocal` | agent_core/patch_manager.py:270-317 | rollback leaves every other file alone |
| `Attention.RowIsCausal` | rfsn_v10/attention_reference.py:101-131 | whenever i + (T_k - T_q) is not negative, output row i is plain attention over the first i + (T_k - T_q) + 1 keys and values, in the masked and in the one-token path alike |
| `Attention.NoFutureLeak` | rfsn_v10/attention_reference.py:28-65 | two calls that agree on the keys and values a query may see give it the same output, whatever follows them and however the queries are batched |
| `Attention.ChunksArePrefill` | rfsn_v10/attention_reference.py:28-65 | feeding a sequence in any split of chunks, one token at a time included, gives the rows of one prefill |
| `Attention.SoftmaxIsDistribution` | rfsn_v10/attention_reference.py:126-129 | weights are non-negative and sum to one |
| `Attention.SoftmaxRatio` | rfsn_v10/attention_reference.py:126-129 | the weights are in the ratio of the exponentials of the scores less their maximum |
| `Attention.OutputIsAverage` | rfsn_v10/attention_reference.py:101-131 | each output coordinate times the sum of those exponentials is the sum of the values weighted by them, the scores being scaled dot products or, after the query's own position, the mask constant |
| `Attention.OutputWithinSeenValues` | rfsn_v10/attention_reference.py:118-131 | each output coordinate lies between the bounds of the values it may see |
| `Attention.RowWithoutHistoryLeaks` | rfsn_v10/attention_reference.py:118-129 | when it is negative, the row is the plain average of all values |
| `Attention.IgnoresUnseenIff` | rfsn_v10/attention_reference.py:118-131 | for any block shape, a row is the same for all keys and values that agree on those it may see if and only if it may see at least one |
| `Attention.MlxMaskIsMask` | rfsn_v10/attention_reference.py:87-92 | the arithmetic mask of the MLX path is the selecting mask of the NumPy path |
| `Attention.BackendsAgree` | rfsn_v10/attention_reference.py:72-131 | both back ends compute the same output |
| `Attention.CausalAttentionNumpy` | rfsn_v10/attention_reference.py:101-131 | each row of the result is that exponential-weighted average, for the scaled dot products and the mask written out; and it is the specified attention |
| `Decoding.GreedyDecode` | benchmarks/run_native_gate.py:342-355 | each generated token is the argmax after the prompt and the tokens before it |
| `Decoding.TeacherForced` | benchmarks/run_native_gate.py:170-213 | row t is the log-probabilities after the prompt and the first t forced tokens |
| `Decoding.ComputeLogitQuality` | benchmarks/run_native_gate.py:84-167 | the reported index is the first row, of those both traces have, whose argmaxes differ within the smaller vocabulary of the two first rows, or none; missing rows are reported as such |
| `Decoding.ArgMaxShift` | benchmarks/run_native_gate.py:347-349 | the choice is the same from logits and from their log-probabilities |
| `Decoding.AfterIsPrefill` | benchmarks/run_native_gate.py:170-213 | for a model whose cached step does what a longer prefill does, forcing tokens after a prompt is prefilling prompt and tokens |
| `Decoding.GreedyIsMostLikely` | benchmarks/run_native_gate.py:342-355 | for such a model every token generated is the most likely one, the first of several, after a prefill of everything before it |
| `Decoding.SelfForcing` | benchmarks/run_native_gate.py:184-213 | a model forced along its own greedy tokens chooses them again |
| `Decoding.FirstDivergenceCoincides` | benchmarks/run_native_gate.py:142-155 | the first position where the free runs differ is the first teacher-forced mismatch, and the runs are equal exactly when there is none, for any two models and caches |
| `Decoding.NativeGate` | benchmarks/run_native_gate.py:513-527 | the index computed by dense run, packed run and two forced runs is the first difference of the two free runs |
| `BatchPredictor.SpreadSign` | rfsn_v10/adaptive_batch.py:117-125 | the denominator is never negative, and zero exactly when all recorded batch sizes are equal |
| `BatchPredictor.NormalEquations` | rfsn_v10/adaptive_batch.py:117-127 | the residuals sum to zero, plain and weighted by batch size |
| `BatchPredictor.LeastSquares` | rfsn_v10/adaptive_batch.py:117-127 | slope and intercept minimise the squared error over all lines |
| `BatchSearch.SearchFinds` | rfsn_v10/adaptive_batch.py:141-156 | for any monotone prediction, k halvings find the largest of fewer than 2^k sizes that meets the target, or none when there is none |
| `BatchSearch.SearchIffProbed` | rfsn_v10/adaptive_batch.py:141-156 | for any number of halvings, the search ends with the largest size if and only if it has it already or halving probes that very size |
| `BatchSearch.SearchNoneIff` | rfsn_v10/adaptive_batch.py:141-156 | it ends with nothing if and only if the last of its probes, all of them missing, is above the largest size |
| `BatchSearch.TenIterationsSuffice` | rfsn_v10/adaptive_batch.py:132-158 | on a history with two sizes and a non-negative slope whose largest size is at most 511, the recommendation is the largest size up to twice that one predicted to meet the target, or the truncated mean |
| `BatchSearch.TenIterationsFail` | rfsn_v10/adaptive_batch.py:132-158 | from 512 on it is not, whenever twice the largest size meets the target |
| `BatchSearch.IterationBoundIsExact` | rfsn_v10/adaptive_batch.py:132-158 | for a largest size m, ten iterations suffice on all such histories and targets if and only if m is at most 511 |
| `BatchSearch.RisingMeetsIff` | rfsn_v10/adaptive_batch.py:132-158 | for any such history and target, of any largest size: the recommendation is the promised one if and only if no size meets the target, or ten halvings probe the largest that does, or probe nothing that small and the mean happens to be it |
| `BatchSearch.FallingMeetsIff` | rfsn_v10/adaptive_batch.py:132-158 | for any history whose slope is not positive, of largest size m: the recommendation is the promised one if and only if 2m misses the target, or m meets it and m is at most 511 |
| `BatchSearch.FallingHistoryIsMissed` | rfsn_v10/adaptive_batch.py:132-158 | a falling history on the failing side of that condition: sizes that meet the target exist and one that does not is returned |
| `BatchSearch.WindowKeepsLast` | rfsn_v10/adaptive_batch.py:104-108 | any sequence of recordings leaves exactly the last window, in order; a window of 0 leaves all, a negative one nothing |
| `BatchSearch.PerformancePredictor.Record` | rfsn_v10/adaptive_batch.py:104-108 | the new history is the end of the old one with the observation appended, never longer than a positive window, by Python's slice rules |
| `BatchSearch.TruncatedMeanIs` | rfsn_v10/adaptive_batch.py:137-158 | what is returned when no size is found is the mean batch size cut off towards zero |
| `BatchSearch.HalveRange` | rfsn_v10/adaptive_batch.py:141-156 | the loop returns what the search finds, or the starting value when nothing is found or predicted |
| `BatchSearch.PerformancePredictor.RecommendBatchSize` | rfsn_v10/adaptive_batch.py:132-158 | returns the recommendation the lemmas above are about, and none on an empty history |
| `TaskForest.CreateKeepsForest` | agent_core/orchestrator.py:41-74 | creating a task with a fresh id, under a registered, an unknown or no parent, keeps the forest |
| `TaskForest.MoveKeepsForest` | agent_core/orchestrator.py:76-176 | starting, completing, failing and cancelling keep it too |
| `TaskForest.ForestInEveryState` | agent_core/orchestrator.py:31-176 | in every state of every run of a new orchestrator tasks form a forest: children listed once, under the one parent they name, after it, and roots are the parentless tasks in creation order |
| `TaskForest.RootsAndSubtasks` | agent_core/orchestrator.py:41-74 | in every state of every run the roots are the tasks created without a parent or with an empty one, and a task is listed under exactly the task it names |
| `TaskForest.TreeIsDescendants` | agent_core/orchestrator.py:202-223 | the tree of a task lists exactly the tasks whose chain of parents reaches it |
| `TaskForest.TreeNoDuplicates` | agent_core/orchestrator.py:202-223 | and none of them twice |
| `TaskForest.TreeInOrder` | agent_core/orchestrator.py:202-223 | the tree lists the task first, then the whole tree of each subtask in the order in which they were added |
| `TaskForest.OneTree` | agent_core/orchestrator.py:202-223 | every task is in the tree of exactly one task whose own parent is not registered |
| `TaskForest.LoadSave` | agent_core/orchestrator.py:246-272 | loading a saved forest rebuilds it, root order included |
| `TaskForest.StatusOnlyRises` | agent_core/orchestrator.py:76-176 | over any run without a reset a task keeps existing with its parent, and its status stays or strictly rises: pending, in progress, completed or cancelled, failed |
| `TaskForest.StatusIsHistory` | agent_core/orchestrator.py:76-176 | in every state of every run, which of the five statuses a task has, and its error message, is told by the requests made for it since it was created: completed, for instance, exactly when it was started while pending, then completed with success while running, and not failed since |
| `TaskRegistry.Orchestrator.CreateTask` | agent_core/orchestrator.py:41-74 | the task objects change as the forest operation says |
| `TaskRegistry.Orchestrator.StartTask` | agent_core/orchestrator.py:76-99 | starts a pending task, refuses any other |
| `TaskRegistry.Orchestrator.CompleteTask` | agent_core/orchestrator.py:101-128 | ends a task in progress as completed or, without success, as failed; refuses any other |
| `TaskRegistry.Orchestrator.FailTask` | agent_core/orchestrator.py:130-151 | fails any registered task |
| `TaskRegistry.Orchestrator.CancelTask` | agent_core/orchestrator.py:153-176 | cancels a task that has neither completed nor failed |
| `TaskRegistry.Orchestrator.GetTaskTree` | agent_core/orchestrator.py:202-223 | whenever subtasks are later tasks, as in every reachable state, terminates and returns the registered objects of the tree, in its order; all roots when no id is given |
| `TaskRegistry.Orchestrator.SaveState` | agent_core/orchestrator.py:246-255 | saves the dictionary and the ids of the roots |
| `TaskRegistry.Orchestrator.LoadState` | agent_core/orchestrator.py:257-272 | takes over the dictionary and rebuilds the roots in dictionary order |
| `TaskRegistry.Orchestrator.Reset` | agent_core/orchestrator.py:274-279 | empties the registry |
| `Planner.Plan.AddStep` | agent_core/planner.py:43-56 | appends a step, unless its description is empty |
| `Planner.AddStepOnEarlier` | agent_core/planner.py:43-56 | a step that depends on steps already in the plan keeps every dependency on an earlier step |
| `Planner.Plan.GetReadySteps` | agent_core/planner.py:65-85 | returns, in plan order, exactly the steps that are not completed and whose dependencies all are |
| `Planner.ReadyInOrder` | agent_core/planner.py:65-85 | the ready steps are a subsequence of the plan |
| `Planner.SomethingIsReady` | agent_core/planner.py:65-85 | when dependencies name earlier steps, nothing is ready exactly when every step is completed, for any list of completed ids |
| `Planner.RunIsOrdered` | agent_core/planner.py:65-85 | a run of ready steps executes each step at most once and after all it depends on |
| `Planner.RunIsBounded` | agent_core/planner.py:65-85 | and is no longer than the plan |
| `Planner.MaximalRunsAgree` | agent_core/planner.py:65-85 | whichever ready steps are chosen, a run that cannot be extended executes everything any other run does, for arbitrary dependencies |
| `Planner.ExecutableRunsComplete` | agent_core/planner.py:65-85 | if some run carries a plan out, every run that cannot be extended does |
| `Planner.ExecutableIffArrangeable` | agent_core/planner.py:65-85 | some run carries a plan out exactly when its steps can be arranged so that each depends on earlier ones |
| `Planner.EarlierDependenciesComplete` | agent_core/planner.py:43-85 | when dependencies name earlier steps, every run that cannot be extended executes each step exactly once, in an order that respects them |
| `Planner.UnknownDependencyNeverRuns` | agent_core/planner.py:65-85 | a step that names an unknown step is never executed |
| `Planner.ChainHasOneRun` | agent_core/planner.py:117-193 | a chain of steps has exactly one run that cannot be extended, the plan itself |
| `Planner.PlanRepoRepairTask` | agent_core/planner.py:117-193 | the repair plan is a chain of nine steps in the order its documentation lists, so its execution order is unique |
| `Sparsity.CounterIsTrailing` | rfsn_v10/adaptive_sparsity.py:173-205 | the counter is the number of trailing clean updates modulo the streak length |
| `Sparsity.TopKMoves` | rfsn_v10/adaptive_sparsity.py:173-205 | the ratio rises on sparse failures and degradations, falls on completed streaks, and otherwise stays |
| `Sparsity.TopKInRange` | rfsn_v10/adaptive_sparsity.py:173-205 | it never leaves its bounds |
| `Sparsity.TopKFallsAndRises` | rfsn_v10/adaptive_sparsity.py:173-205 | it falls if and only if the update completes a streak above the minimum, and rises if and only if it is a sparse failure or degradation below the maximum |
| `Sparsity.FallNeedsCleanStreak` | rfsn_v10/adaptive_sparsity.py:193-203 | a fall is preceded by a full streak of clean updates |
| `Sparsity.DisabledIff` | rfsn_v10/adaptive_sparsity.py:173-203 | either kind of attention is disabled exactly when some update disabled it and no later one enabled it again |
| `Sparsity.ProfilesAreIndependent` | rfsn_v10/adaptive_sparsity.py:87-105 | whatever calls are interleaved, the state of a profile is determined by its own updates |
| `Sparsity.ProfilesAreThoseAskedFor` | rfsn_v10/adaptive_sparsity.py:87-105 | a profile exists exactly when it has been asked for |
| `Sparsity.RatioOverInterleavings` | rfsn_v10/adaptive_sparsity.py:140-212 | over any interleaving a profile's ratio stays in its bounds, and the next call lowers it exactly when it is that profile's own update completing a streak above the minimum |
| `Sparsity.UpdateOnAudit` | rfsn_v10/adaptive_sparsity.py:107-205 | what an update makes of its profile, in metric values: it counts as clean exactly when sparse attention succeeded without fallback, every reported cosine is at least its warning threshold and every error at most its own |
| `Sparsity.NoUpdateNoChange` | rfsn_v10/adaptive_sparsity.py:87-134 | a profile that has had no update is at the initial ratio with both kinds of attention allowed |
| `Sparsity.RatioOverAudits` | rfsn_v10/adaptive_sparsity.py:107-205 | over any interleaving, a call lowers a profile's ratio exactly when its own audit ends a streak of clean audits, and raises it exactly when its own audit reports a failure or sparse values beyond a warning threshold |
| `Sparsity.DisabledOverAudits` | rfsn_v10/adaptive_sparsity.py:107-203 | sparse or quantised attention is disabled exactly when some audit of the profile gave it up, by failure or by a cosine below the fail threshold, and no later one allowed it again |
| `Sparsity.BetterValuesKeepLess` | rfsn_v10/adaptive_sparsity.py:107-205 | if each audit of one history reports no worse values than the corresponding one of another, its ratio is never the larger, however streaks and bounds fall |
| `Sparsity.LengthsShareIff` | rfsn_v10/adaptive_sparsity.py:57-85 | two sequence lengths share a profile if and only if none of 256, 1024 and 4096 separates them, or neither is given |
| `Sparsity.KeyIsInjective` | rfsn_v10/adaptive_sparsity.py:70-85 | keys tell profiles apart when model and layer names contain no colon |
| `Sparsity.ModelsShareIff` | rfsn_v10/adaptive_sparsity.py:70-85 | two models can share a profile if and only if their names are equal or one is the other continued by a colon |
| `Sparsity.LayersShareIff` | rfsn_v10/adaptive_sparsity.py:57-85 | two layers of one model can share a profile if and only if their names are equal or one is the other continued by a colon and a length bucket, alone or before another colon |
| `Sparsity.ProfileState.Absorb` | rfsn_v10/adaptive_sparsity.py:161-205 | the branches of an update, on the profile object |
| `Sparsity.AdaptiveSparsityController.StateFor` | rfsn_v10/adaptive_sparsity.py:87-105 | returns the profile, creating it when missing |
| `Sparsity.AdaptiveSparsityController.GetDecision` | rfsn_v10/adaptive_sparsity.py:115-134 | reports the profile and changes no existing one |
| `Sparsity.AdaptiveSparsityController.Update` | rfsn_v10/adaptive_sparsity.py:140-212 | changes the profile of its own key and no other |
| `BlockSelect.BlockSelectIndices` | benchmarks/validate_production_model.py:44-83 | returns the tokens of the first s blocks and of the last t, where s is the sink blocks and s + t the smaller of all blocks and the larger of the active and the reserved ones; the last index alone when the length is not positive |
| `BlockSelect.SelectBlocks` | benchmarks/validate_production_model.py:51-71 | reserving and filling up selects exactly those blocks, each once |
| `BlockSelect.FewestBlocks` | benchmarks/validate_production_model.py:51-71 | the number of blocks selected is the least that reaches the share asked for and covers the sinks and the recent blocks, or all |
| `BlockSelect.SelectionIsIncreasing` | benchmarks/validate_production_model.py:73-83 | indices are strictly increasing, in range and never none |
| `BlockSelect.SelectionByBlock` | benchmarks/validate_production_model.py:51-78 | a token is selected exactly when its block is |
| `BlockSelect.FullRatioKeepsAll` | benchmarks/validate_production_model.py:51-78 | a ratio of one or more keeps every token |
| `BlockSelect.SelectionGrows` | benchmarks/validate_production_model.py:51-78 | a larger ratio never drops a token |
| `Chunking.ChunkText` | memory/chunking.py:10-31 | yields the chunks the lemmas below are about |
| `Chunking.EndsIff` | memory/chunking.py:25-31 | the generator ends exactly when the text is empty, the overlap is not positive, or it is smaller than the chunk |
| `Chunking.ChunksRebuildText` | memory/chunking.py:25-31 | for an overlap between zero and the chunk size: as many chunks as strides, rounded up, and their first strides joined are the text |
| `Chunking.ChunkIs` | memory/chunking.py:27-29 | chunk k is the text from k strides on, as much as a chunk holds |
| `Chunking.NeighboursOverlap` | memory/chunking.py:27-29 | neighbouring chunks share `overlap` characters, or all of the later one |
| `Chunking.LosslessIff` | memory/chunking.py:25-31 | whenever the generator ends, its chunks give back the text exactly when the text is empty, the overlap is positive, or the text fits in one chunk |

## Left out

- Wall-clock time, timer scheduling, back-off delays, warnings and `get_stats` of the telemetry writer: waiting is a step that may be taken at any time.
- Two threads that both pass the first line of `stop` before either raises the flag, writes that start while the object's own methods run undisturbed (the step machine covers those), and the failure of `close`.
- TelemetryWriter.AsyncWriter.WorkerLoop: is the loop after the stop flag is raised; before that it does not end, and its steps are those of the machine.
- TelemetryWriter.AsyncWriter.Stop: waits for a free queue slot are decided by the queue at the call; the machine's `PutSentinel` and `GiveUp` cover all timings.
- File-system detail: directories, newline translation, symbolic links, permissions, leftover snapshots; `generate_diff`, `generate_patch_from_plan`, orchestrator logging.
- PatchManager.PatchManager.RollbackPatch: faults of the operating system during rollback and during snapshot and restore are not modelled; a fault elsewhere may leave anything at the failing change's own path.
- Floating-point rounding everywhere; batch and head dimensions of attention, tensor types, and the fused kernel, which is taken as plain attention.
- Attention.RowIsCausal: asks that each query have one visible key whose score is above the mask by more than the underflow bound; without it a row is dominated by the mask.
- The contents of the quality report other than the divergent index; tokenizers, sampling other than argmax, model loading.
- Decoding.ComputeLogitQuality: asks for rows that are not empty; the argmax of an empty row raises.
- Decoding.FirstDivergenceCoincides: is about two models of one vocabulary, as the gate compares one model under two caches; along a smaller common vocabulary a token outside it is not seen.
- Decoding.NativeGate: the dense and packed runs are one process each in the source; here they run in turn.
- `AdaptiveBatchSizer`, which only clamps.
- BlockSelect.BlockSelectIndices: asks for a block size of at least one; zero raises and negative sizes are meaningless.
- TaskRegistry.Orchestrator.CreateTask: descriptions, priorities, timestamps and logging are not modelled; the generated id is a parameter, fresh as a random id is.
- TaskRegistry.Orchestrator.SaveState: the pickle encoding is not modelled, only the object graph it carries.
- `TaskState.add_subtask`, which bypasses the registry, test results and automatic saving.
- Planner.PlanRepoRepairTask: step descriptions are shortened; actions, durations, retries and success criteria are not modelled, nor is the generic plan, which has no dependencies.
- Sparsity.AdaptiveSparsityController.Update: `get_stats` and `reset`, and metrics that are not numbers, are not modelled.
- The packed cache, bit packing and kernels, the verdict and report code, tool runners, registries and memory clients are not part of this model.
