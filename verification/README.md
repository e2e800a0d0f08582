# Verified models of the QSO repository's state machines, graphs and logs

A Dafny 4.11 project that models the parts of the repository whose correctness is hard to see from
one function at a time, and proves what they are for. `dafny verify dfyconfig.toml` checks all of it.

Each module follows one component. Code that updates fields, dictionaries or lists in place is a class
with methods; its loops are loops with invariants; each such method is proved against a function or a
relation, and the properties are then lemmas about that function, over every input or every run.

| modules | what they cover |
|---|---|
| `StreamHandover` | one `qso_subscribe` subscription as a state machine over interleaved steps: append, start of a publish task, put, registration, replay, delivery |
| `ParentMap`, `Reparenting`, `CycleReports` | parent maps of a scene, the reparent guard, the three-colour cycle report |
| `Matrices`, `Rotations`, `Projector` | the projector's lineage-guarded walk, its world matrices and what they do to points |
| `Digraph`, `CycleSearch`, `Kahn`, `TaskManifest` | task graphs: the depth-first detector, Kahn's sorter, the manifest validator |
| `TaskRegistry` | the orchestrator's task status machine |
| `Entanglement`, `SandboxReplicas`, `OperationLogs` | links kept a DAG, engines that share one operation log, the logs' hash chains |
| `HashChain`, `ConversationBridge`, `KnowledgeLattice`, `JsonLines` | hash-chained logs, their verifiers and readers, claims folded from one, the lines such a file is cut into |
| `JsonTrees`, `ProjectionQueue` | deep merge and structural diff, the bounded projection queue |
| `ApnSync`, `ApnHistory`, `IsoDates` | resumable table sync with checkpoints and source rollover, the state and transition builder, date texts |
| `Consensus`, `RateLimiter`, `ForceReplay` | policy votes, the sliding window, the force schedule |
| `MaplLanguage`, `MaplGrammar` | the MAPL tokenizer and parser, and the written grammar beside them |
| `Common`, `Text`, `Sorting`, `Ordering` | option and result types, white space, `sorted` |

Hashes are arbitrary functions. Nothing is assumed of them; where a collision would matter the lemma
names the colliding rows or proposals as the alternative. Clocks, fetches, relevance tests and admission
by the rate limiter are parameters; so is the calendar of `ApnHistory.Build`, and `IsoDates.DayOf` is the one
meant.

## What the code turned out to do

Where the code and its documentation, tests or evident intent differ, the model follows the code, a
lemma gives the input that shows it, and the exact condition is proved.

* **Duplicate task ids load.** `TaskRegistry.validate` raises on duplicate ids, but the constructor has
  already folded the list into a dictionary, so the check never fires and the first task is silently
  lost (`DuplicateIdLoads`, `Registry.Validate`). Every listed task is kept exactly when no id comes with
  two different tasks (`EveryTaskKeptIff`).
* **A finished task can lose its foundation.** `update_status` guards the way to `done` but not the way
  back; a call keeps "done rests on done" except exactly when it reopens a task that a finished task
  depends on (`DoneClosedKeptIff`, `ReopeningBreaksDone`).
* **A refused bidirectional entanglement is half made.** The refusal comes after the forward link is
  stored (`HalfMadeLink`, `RefusalLeavesLinksIff`).
* **Puts that overtake break delivery order.** With a full queue in `block` mode a later publish can get
  the free slot first; `BlockedPutOvertaken` is a run that drops nothing and delivers 0, 2, 1. A run that
  comes to rest has delivered everything in order exactly when none of its puts discarded or overtook
  something live (`DeliversAllInOrderIff`, `RunSeamlessIff`). No interleaving repeats a payload
  (`DeliversAtMostOnce`).
* **Entangled payloads are filtered by a foreign cutoff.** An event of an entangled uri, published after
  the subscription began, is delivered exactly when its index in its own log is not below the length the
  subscribed uri's log had then (`EntangledEventDeliveredIff`, `LinkedDeliveredBlocking`).
* **Deep merge does not delete**, so a merged delta gives the new tree back exactly when nothing was
  deleted at any level (`DeletedKeyStays`, `MergeDiffIff`); folding two patches into one is safe exactly when no leaf of the
  first meets an object of the second (`FoldablePatchesIff`).
* **Blank parcels can stop a sync.** A batch-long stretch of rows whose assessment number is missing or blank,
  or such a row at the very end, makes the sync raise; nothing else does (`BlankRowRaises`, `RaisesIffStalls`).
* **An interrupted rollover can lose rows.** The checkpoint is reset after the table is gone; if the run
  stops in between, later runs resume from the stale cursor (`StaleCheckpointCompleteIff`,
  `InterruptedRolloverStaysEmpty`).
* **Pruning keeps rows the source no longer has.** It cuts off only what lies outside the source's window
  (`PrunedKeepsGoneRow`). After a full run the table mirrors the source exactly when, inside the window, the
  old rows up to the cursor were the source's and those above it are rows it still has (`PrunedThenSynced`).
* **MAPL rejects trailing space** (`TrailingSpaceRejected`), **and its identifiers may begin with `_`**, which
  `mapl/grammar.ebnf` does not allow: `@_>a+b->c` is read (`UnderscoreOutsideGrammar`). Space aside, an
  accepted text is in the grammar exactly when no name in it begins so (`AcceptedIsSentenceIff`).
* **The rate limiter trusts its clock**, and the wall clock it reads may step back. On a clock that does
  not, the limit holds (`NoMinuteOverfull`); on any clock it holds exactly when it is at most one event a
  minute (`HoldsOnAnyClockIff`), since under any larger limit a step back lets one too many through
  (`SteppingBackOverfills`).
* **A force scheduled before tick 1 blocks every later one** (`EarlyRowBlocks`, `ReplayIsIntendedIff`).
* **A batch that gives one claim two statements never settles**: merging it again keeps finding changes
  (`TwoStatementsNeverSettle`, `SecondMergeFindsNothingIff`).
* **A batch can merge differently by arrival order**, because the sort key leaves out the confidence
  (`TwoConfidencesOrderMatters`): every arrival order is sorted alike exactly when equal keys carry equal
  confidence (`BatchSortsAlikeIff`), and merges alike exactly when that holds of the rows put in with their
  id's greatest key (`ArrivalOrderIrrelevantIff`).
* **A text with U+0085, U+2028 or U+2029 tears the knowledge file.** The writer leaves these characters as
  they are and the reader ends a line at each, so the file gives its lines back exactly when no event holds
  one (`SeparatorTearsFile`, `FileReadsBackIff`, `FirstLineTorn`).

## Model

| member | source | states |
|---|---|---|
| StreamHandover.DeliversConsecutively | api/mcp_tools/qso_tools.py:164-218 | from any subscription, in every interleaving whose puts discard and overtake nothing live, the own payloads delivered are start, start+1, ... with no gap, repeat or reorder, each with the event logged there, and at rest they reach the end of the log |
| StreamHandover.DeliversAllInOrderIff | api/mcp_tools/qso_tools.py:164-218 | a run that comes to rest has delivered every index from the start to the end of the log, in order, exactly when no put of it discarded or overtook something live |
| StreamHandover.SubscribeStartsIff | api/mcp_tools/qso_tools.py:181-187 | a closed subscription is accepted exactly when the caller asks for an index n within the log, by no cursor (n is 0), by position or by a token of this uri, and it begins at n |
| StreamHandover.DeliversFromIff | api/mcp_tools/qso_tools.py:181-218 | asked for the events from n on, a run at rest has delivered n, n+1, ... to the end of the log exactly when no put lost or overtook something live |
| StreamHandover.ComesToRest | api/mcp_tools/qso_tools.py:189-216 | from any state of an open subscription, in any mode, there is a run without further patches that keeps the line and comes to rest |
| StreamHandover.WorksUntilQuiet | api/mcp_tools/qso_tools.py:189-216 | an open subscription can go on by itself exactly until it has come to rest |
| StreamHandover.QueueBounded | services/entanglement_graph/service.py:116-137 | in every history of subscriptions opened and closed, whatever the mode, the queue stays within its capacity and every payload is an event of the log at its index |
| StreamHandover.NothingAfterUnsubscribe | api/mcp_tools/qso_tools.py:217-218 | once unsubscribed nothing more is queued or delivered until someone subscribes again, whatever is published |
| StreamHandover.FullQueueKeeps | services/entanglement_graph/service.py:116-137 | a put into a full queue keeps the newest of what there is when it drops the oldest, the oldest when it drops the newest, and drops just the one that is over |
| StreamHandover.StepSeamless | services/entanglement_graph/service.py:139-141 | every step, a put that neither discards nor overtakes anything live included, keeps the line delivered + to replay + queued + in flight + scheduled equal to the log from the start index on |
| StreamHandover.RunSeamless | api/mcp_tools/qso_tools.py:795-804 | the hand-over invariant holds over whole runs of such steps, across registration, replay and live delivery |
| StreamHandover.RunSeamlessIff | services/entanglement_graph/service.py:116-137 | over any run the invariant still holds at the end exactly when every put was such a put: an inversion or a loss never heals |
| StreamHandover.TokenResumes | api/mcp_tools/qso_tools.py:824-843 | the cursor token of a delivered own payload resolves, against any later log, to the position right behind it; that of a payload of another uri is refused as such |
| StreamHandover.ResumeContinues | api/mcp_tools/qso_tools.py:953-964 | a new subscription opened with such a token is accepted and delivers the very next indices |
| StreamHandover.RunConserved | services/entanglement_graph/service.py:116-137 | in every interleaving, overtaking and drops included, delivered, pending and dropped indices together are each index from the start once |
| StreamHandover.DeliversAtMostOnce | api/mcp_tools/qso_tools.py:200-216 | no interleaving and no backpressure mode delivers an event twice, and at rest what is missing is exactly what was dropped |
| StreamHandover.DeliversInOrder | services/entanglement_graph/service.py:121-137 | as long as no accepted put lets something live overtake something live, the dropping modes leave gaps but never repeat or reorder |
| StreamHandover.PutOrderedIff | services/entanglement_graph/service.py:116-137 | in any mode, one put keeps what is delivered and to come in order exactly when it is not accepted, is stale, or overtakes nothing live |
| StreamHandover.OvertakingBreaksOrder | services/entanglement_graph/service.py:117-119 | a put that discards nothing live keeps the hand-over invariant exactly when it overtakes no live payload or is itself stale |
| StreamHandover.BlockedPutOvertaken | services/entanglement_graph/service.py:117-119 | in block mode with a queue of one and one subscriber, a run with no drop that comes to rest having delivered 0, 2, 1 |
| StreamHandover.LinkedDeliveredExactly | api/mcp_tools/qso_tools.py:200-216 | over any run the queue is first in, first out, and the entangled payloads delivered are, in order, those taken from it whose own index reaches the subscribed uri's cutoff |
| StreamHandover.LinkedDeliveredBlocking | api/mcp_tools/qso_tools.py:205-208 | in block mode they are exactly those put into the queue at or above the cutoff, the queued rest aside |
| StreamHandover.EntangledEventDeliveredIff | api/mcp_tools/qso_tools.py:205-208 | an entangled event published after subscribing, put and taken with room to spare, is delivered exactly when its own index is not below the length the subscribed uri's log had |
| StreamHandover.Subscriber.Put | services/entanglement_graph/service.py:116-137 | the queue after an enqueue under each backpressure mode |
| StreamHandover.Subscriber.NextPayload | api/mcp_tools/qso_tools.py:189-216 | the generator's next yield: the next replayed event with its token, then the first queued payload that is not stale |
| StreamHandover.NextPayloadIsTakes | api/mcp_tools/qso_tools.py:200-216 | one yield of the generator is a run of the machine's delivery steps, so the machine's theorems are about the generator |
| ParentMap.EndlessMeetsCycle | qso_vr_visualization/scene_render_projector.py:283-304 | a chain of parents that never ends runs into a cycle (pigeonhole over the nodes) |
| ParentMap.CycleReturns | qso_vr_visualization/scene_render_projector.py:283-304 | every ancestor of a node on a parent cycle is on that cycle and leads back |
| ParentMap.ForestIsRooted | qso_vr_visualization/scene_render_projector.py:283-304 | where no node is on a parent cycle every chain of parents ends |
| CycleReports.ParentCycles | qso_vr_visualization/scene_render_projector.py:280-310 | the cycle reports are real closed parent cycles, pairwise disjoint, name exactly the nodes on cycles, one per cycle, and there are none exactly in a forest |
| CycleReports.IntegrityChecker.Visit | qso_vr_visualization/scene_render_projector.py:283-304 | one recursive visit keeps the three-colour invariant: what is left behind is closed under parents and every cycle inside it is reported |
| CycleReports.IntegrityChecker.Report | qso_vr_visualization/scene_render_projector.py:292-302 | when the walk meets its own path, the invariant goes on and the node at the path's end is in a report |
| CycleReports.RealCycleIsOrbit | qso_vr_visualization/scene_render_projector.py:298-302 | a reported list is exactly what climbing from any of its nodes meets |
| Reparenting.WouldCreateParentCycle | api/mcp_tools/qso_tools.py:926-944 | the guard's climb answers true exactly when the node is the new parent or one of its ancestors, cyclic maps included |
| Reparenting.SceneWorld.CreateNode | api/mcp_tools/qso_tools.py:27-29 | a new uri becomes a node without a parent, an existing one stays as it is |
| Reparenting.SceneWorld.ReparentNode | api/mcp_tools/qso_tools.py:462-503 | the parent map after a reparent, or each refusal in its order with the map unchanged |
| Reparenting.ReparentEffect | api/mcp_tools/qso_tools.py:462-503 | a reparent is accepted exactly when node and parent exist and the node is not at or above the parent; then the node hangs under it, every other node hangs where it did, and no node comes or goes; a refused one changes nothing; a node as its own parent and a cycle are told apart |
| Reparenting.ReparentClimbs | api/mcp_tools/qso_tools.py:496-498 | after an accepted reparent the node climbs as its new parent did, what was below the node still is and is below the new parent, and what was not climbs as before |
| Reparenting.ReparentBackIff | api/mcp_tools/qso_tools.py:462-503 | moving a node to another parent and back restores the map exactly when it was on no cycle and its old parent is a node |
| Reparenting.CreateEffect | api/mcp_tools/qso_tools.py:27-29 | creating a node adds it without a parent; creating it again changes nothing |
| Reparenting.EditRunSnoc | api/mcp_tools/qso_tools.py:462-503 | edits are made one after another, each on the map the last one left |
| Reparenting.GuardIsExact | api/mcp_tools/qso_tools.py:488-494 | the guard refuses exactly the parents that would put the node on a cycle |
| Reparenting.EditMakesNoCycle | api/mcp_tools/qso_tools.py:462-503 | a create or reparent, refused or not, leaves only cycles that were there before, node for node |
| Reparenting.RunMakesNoCycle | api/mcp_tools/qso_tools.py:462-503 | over any run of edits no new cycle appears, and a forest stays a forest, which is when the projector reports no cycle |
| Matrices.Mul4 | qso_vr_visualization/scene_render_projector.py:52-63 | the nested loops compute the matrix product |
| Matrices.ProductActs | qso_vr_visualization/scene_render_projector.py:52-63 | the product of any two matrices acts on vectors of four coordinates as its factors do one after the other |
| Matrices.ProductComposes | qso_vr_visualization/scene_render_projector.py:52-72 | multiplying affine matrices composes the point maps they stand for |
| Rotations.TrsPlaces | qso_vr_visualization/scene_render_projector.py:75-116 | a local matrix scales a point, turns it as the product with the unit quaternion and its conjugate does, and moves it, in that order |
| Projector.WorldMatrixPlaces | qso_vr_visualization/scene_render_projector.py:185-193 | a world matrix does to a point what the chain of local transforms from node to root does |
| Projector.BuildChildren | qso_vr_visualization/scene_render_projector.py:167-172 | every node's child list is its children, sorted, each once |
| Projector.SiblingsApart | qso_vr_visualization/scene_render_projector.py:185-193 | no node lies below two children of one node |
| Projector.Walker.Walk | qso_vr_visualization/scene_render_projector.py:185-193 | on any parent map the walk ends and touches only what lies below, with the links that lead out of the lineage cut; on course it sets each node below exactly once, to its proper matrix |
| Projector.WalkRoots | qso_vr_visualization/scene_render_projector.py:195-196 | after the walks from the roots every node whose chain ends has its matrix, set once |
| Projector.WalkRest | qso_vr_visualization/scene_render_projector.py:197-199 | the second pass gives every node a matrix and disturbs none already right |
| Projector.WorldMatrices | qso_vr_visualization/scene_render_projector.py:182-199 | every node gets a matrix; where the chain of parents ends it is the product from the root down, walked exactly once, in a forest for every node; on or below a cycle it is the product from the least uri of that cycle down |
| Projector.LeastAboveExists | qso_vr_visualization/scene_render_projector.py:197-199 | every node whose chain does not end hangs on a cycle with a least uri |
| Projector.Project | qso_vr_visualization/scene_render_projector.py:201-237 | visible plus culled is the node count and the rows shown are the relevant nodes in uri order with their matrices |
| Digraph.NoCycleFromListed | tools/solis_task_manifest.py:192-214 | nodes listed with all their arrows pointing back lie on no cycle |
| CycleSearch.Detector.Dfs | tools/solis_task_manifest.py:196-208 | the depth-first visit names a node on a cycle, or finishes the node with all it needs |
| CycleSearch.DetectCycle | tools/solis_task_manifest.py:192-214 | None exactly on acyclic graphs, and otherwise a node that lies on a cycle |
| Kahn.Tally | tools/solis_task_manifest.py:119-134 | the counts and successor lists are those of the dependency entries, repetitions included |
| Kahn.DoneReleases | tools/solis_task_manifest.py:141-144 | finishing a task lowers every other task's count once per entry it has on it |
| Kahn.Release | tools/solis_task_manifest.py:141-144 | the inner loop keeps the counts right and queues exactly the tasks that become free |
| Kahn.StuckIffCycleOrUnknown | tools/solis_task_manifest.py:146-147 | when the queue runs dry all tasks are listed exactly if every dependency is known and there is no cycle |
| Kahn.TopologicalOrder | tools/solis_task_manifest.py:114-148 | succeeds exactly on acyclic graphs with known dependencies, and lists every task once after all its dependencies |
| TaskManifest.CheckPhases | tools/solis_task_manifest.py:46-57 | no fault exactly for objects with distinct non-empty ids |
| TaskManifest.CheckTasks | tools/solis_task_manifest.py:59-99 | no fault exactly when every row check holds, and then the index holds the rows' dependency lists |
| TaskManifest.SameGraph | tools/solis_task_manifest.py:97-134 | the detector and the sorter read the same graph from a manifest |
| TaskManifest.ValidateManifest | tools/solis_task_manifest.py:32-111 | no fault exactly in a well-formed manifest, acyclicity included |
| TaskManifest.TopoCommand | tools/solis_task_manifest.py:251-259 | a manifest that validates always sorts, into an order of all its tasks |
| TaskRegistry.Registry.constructor | codex_orchestrator.py:85-87 | of two tasks with one id the later is kept |
| TaskRegistry.Registry.Validate | codex_orchestrator.py:104-139 | accepts exactly non-empty registries with known dependencies and no cycle, and never raises on a duplicate id |
| TaskRegistry.DuplicateIdLoads | codex_orchestrator.py:108-112 | a list with two tasks of one id passes validation and keeps only the second |
| TaskRegistry.EveryTaskKeptIff | codex_orchestrator.py:85-87 | every listed task is in the registry exactly when no id is listed with two different tasks |
| TaskRegistry.AsManyAsListedIff | codex_orchestrator.py:85-87 | the registry is as large as the list exactly when no id is listed twice |
| TaskRegistry.Load | codex_orchestrator.py:89-102 | loads exactly the sound tables, refreshed |
| TaskRegistry.Registry.RefreshReadyStates | codex_orchestrator.py:141-150 | the in-place loop, reading half-refreshed statuses, ends in the table refreshed all at once |
| TaskRegistry.SettleReadsDoneOnly | codex_orchestrator.py:141-150 | refreshing a task depends only on which tasks are done, hence not on the order of the tasks |
| TaskRegistry.RefreshSettles | codex_orchestrator.py:141-150 | after a refresh every free task is ready or blocked as its dependencies say, never pending, and refreshing again changes nothing |
| TaskRegistry.SettledIffRefreshed | codex_orchestrator.py:141-150 | a table meets that rule exactly when a refresh leaves it alone |
| TaskRegistry.Registry.AssignTask | codex_orchestrator.py:169-177 | the table after an assignment, or the refusal |
| TaskRegistry.Registry.UpdateStatus | codex_orchestrator.py:179-192 | the table after a status update, or the refusal |
| TaskRegistry.RefreshEffect | codex_orchestrator.py:141-150 | a refresh changes the status of pending, ready and blocked tasks and nothing else: ready where all dependencies are done, blocked elsewhere |
| TaskRegistry.AssignEffect | codex_orchestrator.py:169-177 | an assignment is accepted exactly for a free task whose dependencies are done, which is then in progress with the given assignee, or the old one for an empty text; every other task is as after a refresh |
| TaskRegistry.UpdateEffect | codex_orchestrator.py:179-192 | an update is accepted exactly for a text that names a status and a known task, whose dependencies are done if the text is "done"; the table is then the old one with this status there, refreshed, and unchanged if refused |
| TaskRegistry.HeldUntilUpdated | codex_orchestrator.py:141-177 | an assigned task stays in progress with its assignee and cannot be assigned again, in any run of calls that does not update it |
| TaskRegistry.NamesOfStatuses | codex_orchestrator.py:179-181 | every status has its name and no other text names one |
| TaskRegistry.RunSnoc | codex_orchestrator.py:141-192 | calls run one after another, each on the table the last one left |
| TaskRegistry.PriorityOrder | codex_orchestrator.py:206-208 | critical ranks before high, high before medium, medium before low and low before any other text, whatever the case |
| TaskRegistry.LowerOfCapital | codex_orchestrator.py:208 | a capital letter becomes the small one at its place in the alphabet |
| TaskRegistry.Registry.ReadyTasks | codex_orchestrator.py:157-162 | exactly the tasks ready after a refresh, each once, by priority rank and then id |
| TaskRegistry.RunStaysSettled | codex_orchestrator.py:169-192 | after any run of assignments and updates, failed ones included, every free task is ready exactly when its dependencies are done |
| TaskRegistry.SomeTaskReady | codex_orchestrator.py:157-162 | in a sound registry with work left, some unfinished task has its dependencies done, and it is ready unless it is failed, archived, under review or in hand |
| TaskRegistry.NoneReadyIff | codex_orchestrator.py:157-162 | no task is ready exactly when every unfinished task whose dependencies are done is so held |
| TaskRegistry.FinishOne | codex_orchestrator.py:169-192 | assigning a ready task and marking it done succeeds and finishes just that task |
| TaskRegistry.ScheduleFinishes | codex_orchestrator.py:169-192 | whatever ready tasks are picked, none repeats, dependencies come first, and each round finishes one |
| TaskRegistry.NeverStuck | codex_orchestrator.py:157-192 | a further ready pick exists exactly while work is left, so the work is done in exactly as many rounds as there were tasks |
| TaskRegistry.DoneClosedKeptIff | codex_orchestrator.py:179-192 | a call keeps every done task resting on done tasks except exactly when it reopens one that a done task depends on |
| TaskRegistry.ReopeningBreaksDone | codex_orchestrator.py:179-192 | two finished tasks where reopening the lower leaves the upper done on unfinished work |
| Entanglement.Search | services/entanglement_graph/service.py:59-69 | the recursion with its shared seen set finds a path or leaves a set of nodes closed under links |
| Entanglement.HasPath | services/entanglement_graph/service.py:59-69 | true exactly when links lead from the first uri to the second |
| Entanglement.Entangle | services/entanglement_graph/service.py:71-88 | the links and refusal of every combination of flags |
| Entanglement.AcceptedStores | services/entanglement_graph/service.py:71-88 | when a link is accepted, and then: the links are the old ones and it, behind them its reverse exactly if it is bidirectional, and its source leads to its target |
| Entanglement.RunStores | services/entanglement_graph/service.py:71-88 | over any run of calls that allow no cycle the arrows are exactly those of the links not refused as cyclic, and have no cycle |
| Entanglement.RefusedIff | services/entanglement_graph/service.py:71-79 | in such a run a link is refused as cyclic exactly when the links stored before lead from its target back to its source, and as bidirectional exactly when it is and they do not |
| Entanglement.NewArrowAcyclicIff | services/entanglement_graph/service.py:71-73 | a new link keeps a DAG acyclic exactly when its target does not lead back to its source |
| Entanglement.EntangleKeepsDag | services/entanglement_graph/service.py:71-78 | without allow_cycle the links stay a DAG, and a link is refused as cyclic exactly when it would end that |
| Entanglement.RefusalLeavesLinksIff | services/entanglement_graph/service.py:75-78 | a refusal leaves the links alone except for the bidirectional one, which keeps the link |
| Entanglement.HalfMadeLink | services/entanglement_graph/service.py:75-78 | a refused bidirectional link between two objects leaves the forward link stored |
| SandboxReplicas.ExecOp | mcp_qso_edu/sandbox_engine.py:52-128 | the effect of a create, patch or entangle call on a runtime, or why it raises |
| SandboxReplicas.SandboxContext.constructor | mcp_qso_edu/sandbox_engine.py:39-50 | opening replays the whole log: the new context is up to date |
| SandboxReplicas.SandboxContext.Refresh | mcp_qso_edu/sandbox_engine.py:170-176 | refreshing brings a context from the first applied operations to the whole log |
| SandboxReplicas.SandboxContext.Call | mcp_qso_edu/sandbox_engine.py:52-128 | a call answers from the log's state, appends exactly when it succeeds, leaves other logs alone and every other context a replay of its own prefix |
| SandboxReplicas.CreateAdds | mcp_qso_edu/sandbox_engine.py:52-68 | an admitted create adds an empty object, touches nothing else and logs itself; where there is one it is refused and nothing is logged |
| SandboxReplicas.PatchAdds | mcp_qso_edu/sandbox_engine.py:85-101 | an admitted patch logs itself and adds one timeline event with its delta and actor and the next tick; keys with scalars read as given, other keys, objects and links as before; a missing object is refused and nothing is logged |
| SandboxReplicas.EntangleAdds | mcp_qso_edu/sandbox_engine.py:111-128 | an admitted entangle adds its link behind the others and logs itself, unless its target leads back to its source |
| SandboxReplicas.StateReadsLog | mcp_qso_edu/sandbox_engine.py:170-203 | the state read off any sound log: the objects it creates, its patches in order with ticks from one as the timeline, its links in order |
| SandboxReplicas.SecondCreatePassedOver | mcp_qso_edu/sandbox_engine.py:182-188 | a replay passes over the creation of an object that is there, and over no other failure |
| SandboxReplicas.CatchUp | mcp_qso_edu/sandbox_engine.py:170-176 | replaying the tail onto the state of a prefix gives the state of the log |
| SandboxReplicas.UpToDateAgree | mcp_qso_edu/sandbox_engine.py:166-203 | two up-to-date contexts of one sandbox hold the same objects, timeline and links |
| SandboxReplicas.RunIsItsSuccesses | mcp_qso_edu/sandbox_engine.py:52-128 | a run of calls by any contexts amounts to its successful operations executed in order |
| SandboxReplicas.LinksStayDag | mcp_qso_edu/sandbox_engine.py:111-128 | the links of every sandbox form a DAG |
| SandboxReplicas.StateRebuilds | services/state_engine/service.py:195-199 | in every state reached, each object's state is what folding its timeline gives |
| OperationLogs.OperationStore.AppendOp | mcp_qso_edu/sandbox_persistence.py:41-71 | an append adds one sealed row to one sandbox's file |
| OperationLogs.AppendsVerify | mcp_qso_edu/sandbox_persistence.py:41-77 | however writers interleave, every file verifies and holds exactly its own operations in order |
| OperationLogs.VerifyFile | tools/mesh_integrity_check.py:81-95 | one file is accepted exactly when its chain is right, and otherwise the first bad row is found |
| OperationLogs.VerifyRoot | tools/mesh_integrity_check.py:75-96 | accepts exactly when every file's chain is right, and otherwise names the first bad row of the first bad file, why, and how many rows were sound |
| OperationLogs.TotalSplits | tools/mesh_integrity_check.py:81-95 | the row count of files put together is the sum of their counts |
| HashChain.AppendStaysChained | mcp_qso_edu/sandbox_persistence.py:45-77 | appending a sealed row keeps the chain acceptable |
| HashChain.LastHashPinsLog | tools/mesh_integrity_check.py:48-72 | two accepted logs with the same last hash are one log, unless a row of one and a row of the other collide or a row hashes to the starting word |
| HashChain.TailIsRecomputed | mcp_qso_edu/conversation_bridge.py:101-120 | the next row names the recomputed hash of the last row, where that row's own is right or missing |
| ConversationBridge.VerifyBridge | tools/mesh_integrity_check.py:48-72 | accepts exactly rising, correctly chained rows, and otherwise names the first bad line, the reason and the rows before it |
| ConversationBridge.Bridge.Append | mcp_qso_edu/conversation_bridge.py:28-64 | an append reads the tail afresh, adds the next row, and refuses empty source or content without writing |
| ConversationBridge.AppendKeeps | mcp_qso_edu/conversation_bridge.py:43-64 | every append keeps the log acceptable, and a log numbered 1..n numbered 1..n+1 |
| ConversationBridge.TailState | mcp_qso_edu/conversation_bridge.py:101-120 | the scan finds the last row's number and hash |
| ConversationBridge.Read | mcp_qso_edu/conversation_bridge.py:66-94 | a page is the first rows after the given number, up to the clamped limit, and next_seq its last number |
| ConversationBridge.ClampIsNearest | mcp_qso_edu/conversation_bridge.py:66-68 | a limit is moved to the nearest number from 1 to 500 |
| ConversationBridge.TurnKeepsPlace | mcp_qso_edu/conversation_bridge.py:66-94 | a page or an append keeps what was read a prefix of the log |
| ConversationBridge.LogHoldsMessages | mcp_qso_edu/conversation_bridge.py:28-64 | after any turns of writing and reading the log holds the messages that were there and then those sent, in order and as they were sent |
| ConversationBridge.PagingReadsAll | mcp_qso_edu/conversation_bridge.py:66-94 | paging with next_seq while others append reads every row once, in order, and an empty page means all of them |
| ConversationBridge.CursorCounts | mcp_qso_edu/conversation_bridge.py:28-94 | whatever is written and read in turn, a log numbered from one stays so, and a reader's cursor is the number of rows it has read |
| KnowledgeLattice.NormalizeTwice | qso_xr/knowledge_lattice.py:247-268 | a normalised claim, written and read back, normalises to itself |
| KnowledgeLattice.NormalizeGives | qso_xr/knowledge_lattice.py:247-268 | a row is refused exactly when its id is blank; else the claim has the id without the space around it, the section or "unknown", the statement or nothing, and the confidence, a half when there is none, moved into 0 to 1 and rounded to the nearest millionth, ties to even |
| Text.StripIs | qso_xr/knowledge_lattice.py:248 | what is stripped is the space at the two ends, all of it and nothing else |
| Text.SpacesAre | qso_xr/knowledge_lattice.py:248 | the characters that count as space |
| KnowledgeLattice.Load | qso_xr/knowledge_lattice.py:162-186 | opens exactly the files with a right chain and named claims, to the folded claims, the event count and the last hash; otherwise the error is that of the first row that does not open, the chain looked at before the hash and the hash before the claim |
| JsonLines.FileReadsBackIff | qso_xr/knowledge_lattice.py:14-15 | a file of events written as one JSON object a line and cut with splitlines gives its lines back exactly when no key or text holds U+0085, U+2028 or U+2029 |
| JsonLines.EventReadsBack | qso_xr/knowledge_lattice.py:14-15 | an event as it is encoded, escapes and nesting included, is read back as itself, whatever follows it |
| JsonLines.EventsRestored | qso_xr/knowledge_lattice.py:166-170 | a file of events none of which holds one of the three characters gives just these events back, in order |
| JsonLines.FirstLine | qso_xr/knowledge_lattice.py:166 | a line ends at its first break; a carriage return and the line feed behind it are one |
| JsonLines.LoadedOne | qso_xr/knowledge_lattice.py:167-169 | a blank line is skipped, any other loses the space around it |
| JsonLines.LoadedConcat | qso_xr/knowledge_lattice.py:166-170 | lines are loaded one by one, in order |
| JsonLines.BreaksAre | qso_xr/knowledge_lattice.py:166 | the ten characters at which a line ends |
| JsonLines.SeparatorTearsFile | qso_xr/knowledge_lattice.py:166-170 | a claim whose statement holds such a character: what comes back is not what was written |
| JsonLines.FirstLineTorn | qso_xr/knowledge_lattice.py:166-170 | a line that holds a line break comes back as a proper beginning of itself |
| KnowledgeLattice.Lattice.AppendClaim | qso_xr/knowledge_lattice.py:46-59 | an append puts the claim, logs one event, an add or an update, and leaves memory what reopening the file would give |
| KnowledgeLattice.Lattice.MergeSandbox | qso_xr/knowledge_lattice.py:61-153 | the report, the claims and the whole file after a merge: an event for each new claim, one for each changed one, and a snapshot, each an add or an update and numbered and chained in turn; refused or unapproved, it changes nothing; memory stays what reopening would give |
| KnowledgeLattice.MergedFileKeeps | qso_xr/knowledge_lattice.py:188-203 | a merge only appends, one row for each new or changed claim and one for the snapshot |
| KnowledgeLattice.MergedFileHolds | qso_xr/knowledge_lattice.py:108-138 | the rows a merge appends: the new claims in their order, then the changed ones in theirs, then the snapshot, numbered on |
| KnowledgeLattice.ClaimWellLogged | qso_xr/knowledge_lattice.py:55-59 | a claim's first event adds it and every later one updates it, events numbered from one: appending a claim keeps a file so |
| KnowledgeLattice.MergeWellLogged | qso_xr/knowledge_lattice.py:108-138 | a merge keeps a file so, its snapshot included |
| KnowledgeLattice.GreatestRowStays | qso_xr/knowledge_lattice.py:68-69 | of the rows of one claim in a batch that are put in, the one with the greatest section and then statement stays, in whatever order they arrive |
| KnowledgeLattice.MergedAt | qso_xr/knowledge_lattice.py:108-121 | after a merge an id holds the last sorted row of it that is new or contradicts, or what it held before |
| KnowledgeLattice.Compare | qso_xr/knowledge_lattice.py:71-88 | the comparison loop's new rows, changed rows and count of unchanged ones |
| KnowledgeLattice.CompareCoversAll | qso_xr/knowledge_lattice.py:71-88 | every row of a batch is new, changed or unchanged |
| KnowledgeLattice.SecondMergeFindsNothingIff | qso_xr/knowledge_lattice.py:61-153 | merging a batch again finds no new claim, and no changed one exactly when no two rows give one claim different statements |
| KnowledgeLattice.TwoStatementsNeverSettle | qso_xr/knowledge_lattice.py:68-121 | one claim with two statements: whatever is there, merging the batch again finds a change |
| KnowledgeLattice.SecondMergeChangesNothing | qso_xr/knowledge_lattice.py:108-121 | then the claims stay as they are |
| Sorting.LastArrivalStays | qso_xr/knowledge_lattice.py:69 | the sort is stable: of the greatest rows that pass a test, the one arriving last is sorted last |
| Sorting.SortsAlikeIff | qso_xr/knowledge_lattice.py:69 | every rearrangement of a list is sorted into one list exactly when no two different elements tie |
| KnowledgeLattice.BatchSortsAlikeIff | qso_xr/knowledge_lattice.py:68-69 | every arrival order of a batch is sorted alike exactly when equal keys carry equal confidence |
| KnowledgeLattice.ArrivalOrderIrrelevantIff | qso_xr/knowledge_lattice.py:68-121 | every arrival order gives the same merged claims exactly when, for each id, the rows put in with its greatest key carry one confidence |
| KnowledgeLattice.TwoConfidencesOrderMatters | qso_xr/knowledge_lattice.py:68-69 | one statement of a new claim with two confidences: the later row stays |
| KnowledgeLattice.KnownStatementOrderIrrelevant | qso_xr/knowledge_lattice.py:80-88 | a batch whose statements are all there already merges alike in any order, whatever its confidences |
| JsonTrees.DeepMerge | qso_xr/scene_graph.py:52-59 | the in-place loop computes the recursive merge |
| JsonTrees.MergeIdempotent | qso_xr/scene_graph.py:52-59 | applying a patch twice is applying it once |
| JsonTrees.FoldablePatchesIff | services/state_engine/service.py:20-27 | two patches may be folded into one on every tree exactly when no leaf of the first meets an object of the second |
| JsonTrees.CompileDelta | qso_xr/stream_projection.py:97-121 | the key-by-key loop computes the delta with its sorted list of deletions |
| JsonTrees.DiffEmptyIff | qso_xr/stream_projection.py:97-121 | the delta is empty exactly between equal trees |
| JsonTrees.MergeDiffIff | qso_xr/stream_projection.py:97-121 | merging the delta into the old tree gives the new tree exactly when nothing was deleted at any level |
| JsonTrees.DeletedKeyStays | qso_xr/stream_projection.py:97-121 | the only key deleted: after merging the delta it is still there, next to the list of deletions |
| JsonTrees.DeltaCarries | qso_xr/stream_projection.py:97-121 | a reader that honours the deletions gets the new tree, whenever the marker is no user key |
| ProjectionQueue.Queue.Publish | qso_xr/stream_projection.py:19-29 | the queue and answer of a publish under each backpressure |
| ProjectionQueue.Queue.Drain | qso_xr/stream_projection.py:31-37 | a drain cuts a prefix of the clamped length |
| ProjectionQueue.PublishEffect | qso_xr/stream_projection.py:19-29 | in any run a payload is queued last, the oldest leaving a full queue that drops its oldest; a full queue of another kind changes nothing, and the answer says which |
| ProjectionQueue.DrainEffect | qso_xr/stream_projection.py:31-37 | in any run a drain takes the oldest: all without a limit, none for a negative one, else that many as far as there are |
| ProjectionQueue.ClampedIsLeast | qso_xr/stream_projection.py:15 | the bound is the least that is at least one and at least what was asked for |
| ProjectionQueue.RunsSound | qso_xr/stream_projection.py:14-37 | in every run the bound holds, the queue is the newest end of what was accepted, and what was drained came before it, in order and each once |
| ProjectionQueue.NothingLostIff | qso_xr/stream_projection.py:21-29 | all that was accepted comes out in order exactly in the runs where drop_oldest never met a full queue |
| ApnSync.SyncState.UpsertRows | tools/solis_orange_county_apn_db.py:396-442 | the upsert lays the rows over the table, later rows winning |
| ApnSync.SyncState.Sync | tools/solis_orange_county_apn_db.py:574-622 | the loop with its cap, its checkpoint after every batch and a stop between commit and checkpoint ends as the run the next rows are about |
| ApnSync.BatchOverlays | tools/solis_orange_county_apn_db.py:602-617 | a committed batch extends the overlay of the source's rows up to the new cursor; repeating one changes nothing |
| ApnSync.RunOverlays | tools/solis_orange_county_apn_db.py:578-622 | after any run the table is the start with every source row up to the cursor laid over it, and the cursor has not gone back |
| ApnSync.RowsAreStored | tools/solis_orange_county_apn_db.py:366-442 | after a full run that exhausts the source, every row above the cursor with an assessment number is in the table under its id, with its number, that number normalised, and its details |
| ApnSync.NormalizeConcat | tools/solis_orange_county_apn_db.py:49-50 | normalising works character by character |
| ApnSync.NormalizeOne | tools/solis_orange_county_apn_db.py:49-50 | a letter or digit stays and any other character goes |
| ApnSync.RaisesIffStalls | tools/solis_orange_county_apn_db.py:609-610 | a full run raises exactly when a batch-long stretch of blank rows, or a blank last row, lies ahead |
| ApnSync.BlankRowRaises | tools/solis_orange_county_apn_db.py:366-370 | one row whose assessment number is blank makes a full run raise with nothing done |
| ApnSync.RunKeepsStall | tools/solis_orange_county_apn_db.py:578-622 | no capped or interrupted run crosses such a stall or makes one |
| ApnSync.AnyScheduleSameTable | tools/solis_orange_county_apn_db.py:574-622 | any number of capped and interrupted runs followed by a full one ends like one full run: same table, same cursor, same ending, raised or not |
| ApnSync.AnyWholeScheduleSameTable | tools/solis_orange_county_apn_db.py:494-622 | the same of whole runs, rollover and pruning included, on a table inside the window of an unchanging source |
| ApnSync.ScheduleSnoc | tools/solis_orange_county_apn_db.py:574-622 | each run of a schedule goes on from the table and checkpoint that the runs before it left |
| ApnSync.WholeScheduleSnoc | tools/solis_orange_county_apn_db.py:494-622 | the same of whole runs |
| ApnSync.InsideOverlaps | tools/solis_orange_county_apn_db.py:525-530 | a row inside the source's window makes the two ranges overlap |
| ApnSync.InsideWindowUntouched | tools/solis_orange_county_apn_db.py:519-572 | on a table inside the source's window the preparation changes nothing |
| ApnSync.OverlapIff | tools/solis_orange_county_apn_db.py:166-167 | two windows overlap exactly when some number lies in both |
| ApnSync.PrepareExplained | tools/solis_orange_county_apn_db.py:519-574 | whatever branch is taken, just the rows inside the source's window are left; the run starts from 0 when the windows do not meet, from just below the source's when rows were cut off above it and the checkpoint lay above it, and from the checkpoint otherwise; only the second is written at once; without rows in the source nothing is prepared |
| ApnSync.RolloverRebuilds | tools/solis_orange_county_apn_db.py:531-546 | a rollover that runs through rebuilds the table from the source alone |
| ApnSync.StaleCheckpointCompleteIff | tools/solis_orange_county_apn_db.py:544-574 | with the old checkpoint left behind, a full run completes the table exactly when every row at or below the stale cursor was there already |
| ApnSync.InterruptedRolloverStaysEmpty | tools/solis_orange_county_apn_db.py:544-574 | interrupted in a rollover to smaller ids, the table stays empty on every later run |
| ApnSync.PrunedThenSynced | tools/solis_orange_county_apn_db.py:554-622 | after pruning and a full run the table holds the source's rows above the cursor and the old rows inside the source's window; it mirrors the source exactly when, inside the window, the old rows up to the cursor were the source's and those above are rows it still has |
| ApnSync.PrunedKeepsGoneRow | tools/solis_orange_county_apn_db.py:554-572 | source ids 1 and 3, table ids 2 and 5, checkpoint 5: after pruning and a full run row 2 is still there |
| ApnHistory.Build | tools/solis_orange_county_scope.py:719-783 | every parcel with k dated fragments gets states 1..k and the k-1 transitions between neighbours, however parcels are interleaved |
| ApnHistory.TransitionJoinsStates | tools/solis_orange_county_scope.py:758-781 | a parcel's i-th transition leads from its i-th state to the next, with the document and map numbers of the later fragment and the days between the two dates |
| ApnHistory.DaysTelescope | tools/solis_orange_county_scope.py:765-769 | when all dates parse, a parcel's transition days add up to the time from first to last fragment |
| ApnHistory.NoNegativeDays | tools/solis_orange_county_scope.py:719-769 | on rows in the query's order no transition between two dates has negative days, and on the date texts the importer stores every transition has days |
| IsoDates.ReadsWhatIsWritten | tools/solis_orange_county_scope.py:203-221 | a stored date text reads back as its date |
| IsoDates.BeforeIsSmaller | tools/solis_orange_county_scope.py:608-614 | an earlier date has a smaller day number, leap years included |
| IsoDates.NextDayIsNextNumber | tools/solis_orange_county_scope.py:608-614 | every valid date but the last has a next one, and its day number is the next |
| IsoDates.FourCenturies | tools/solis_orange_county_scope.py:608-614 | four centuries are 146097 days, whatever day they begin with |
| IsoDates.MonthLengths | tools/solis_orange_county_scope.py:608-614 | the lengths of the twelve months |
| IsoDates.TextOrderIsDayOrder | tools/solis_orange_county_scope.py:729 | date texts that parse are ordered as texts exactly as their days are ordered |
| Consensus.Coordinator.Vote | qso_global_meta/consensus_module.py:65-68 | a vote for a known digest is recorded once, an unknown digest refused |
| Consensus.Coordinator.Propose | qso_global_meta/consensus_module.py:58-63 | a proposal is kept under its digest, the first one winning, and votes for itself |
| Consensus.Coordinator.Tally | qso_global_meta/consensus_module.py:76-80 | the ranking by votes and then digest, whatever order the table lists them in |
| Consensus.Coordinator.Decide | qso_global_meta/consensus_module.py:82-126 | the decision for a ranking, remembered unless the total is refused |
| Consensus.BallotsAreCounted | qso_global_meta/consensus_module.py:58-74 | the ballots of a run are the proposers' own and the votes for digests proposed earlier |
| Consensus.VotesAreBallots | qso_global_meta/consensus_module.py:58-68 | after any run the vote table holds those ballots, each once |
| Consensus.OrderAndRepeatsDoNotMatter | qso_global_meta/consensus_module.py:82-126 | runs with the same ballots are decided alike, unless they propose two policies that share a digest |
| Consensus.DecideAcceptsIff | qso_global_meta/consensus_module.py:82-126 | a digest is accepted exactly when it wins and its share reaches the quorum |
| Consensus.DecideExplained | qso_global_meta/consensus_module.py:82-126 | the answer from the ballots alone: no votes, a refused total, or the digest with the most backers, of several the least, with its backers counted and a policy of its digest that was proposed, accepted unless its share of a given total is below the quorum; an acceptance lists every backed digest with its backers, best first |
| Consensus.Agreement | qso_global_meta/consensus_module.py:96-113 | coordinators that saw different parts of an electorate with one vote each never accept different digests, if two quorums must meet |
| Consensus.AcceptedStays | qso_global_meta/consensus_module.py:96-113 | once accepted, a digest stays accepted as more of the electorate votes |
| Consensus.AboveHalfMeets | qso_global_meta/consensus_module.py:82-87 | any quorum above one half makes quorums meet |
| Consensus.NeverDisagreesIff | qso_global_meta/consensus_module.py:96-113 | no electorate of a size can be answered with two digests exactly when no two disjoint groups both reach the quorum |
| Consensus.DecisionsStand | qso_global_meta/consensus_module.py:58-126 | along a run over one electorate and a quorum above one half, every decision after the first acceptance accepts the same digest |
| MaplLanguage.Tokenize | mapl/tokenizer.py:15-28 | the loop gives the scan of the text; an error's position is the end of the longest part, from the start, that scans |
| MaplLanguage.ReadsBack | mapl/tokenizer.py:6-28 | a text of tokens with space before any of them, and between identifiers, scans back to those tokens |
| MaplLanguage.Splits | mapl/tokenizer.py:6-28 | every text that scans is such a text |
| MaplLanguage.ScansIff | mapl/tokenizer.py:6-28 | the tokenizer's language, exactly |
| MaplLanguage.TrailingSpaceRejected | mapl/tokenizer.py:18-21 | space at the end is never accepted |
| MaplLanguage.Cursor.ParseList | mapl/parser.py:32-37 | the list loop reads the list that stands at the cursor |
| MaplLanguage.Parse | mapl/parser.py:17-29 | succeeds exactly when the text scans and its tokens parse, with that command |
| MaplLanguage.ParseIff | mapl/parser.py:17-37 | the parser accepts the canonical tokens of a command and nothing else |
| MaplLanguage.RoundTrip | mapl/parser.py:17-64 | a command written with any space before any token reads back as itself |
| MaplLanguage.AcceptsIff | mapl/parser.py:17-64 | the texts read as a command are exactly its canonical tokens behind any space |
| MaplLanguage.SameCommandSameTokens | mapl/parser.py:17-64 | two texts read as one command have the same tokens |
| MaplGrammar.AcceptedIsSentenceIff | mapl/grammar.ebnf:1-8 | space aside, a text read as a command is a sentence of the written grammar exactly when no name in it begins with an underscore |
| MaplGrammar.SentenceIff | mapl/grammar.ebnf:1-8 | the sentences of the grammar are exactly the accepted texts without space and without such names |
| MaplGrammar.UnderscoreOutsideGrammar | mapl/tokenizer.py:6 | a text that the parser accepts and the grammar does not |
| RateLimiter.Limiter.RecordEvent | mcp_qso_edu/rate_limiter.py:22-27 | the deque and answer of an event |
| RateLimiter.Limiter.RecordObject | mcp_qso_edu/rate_limiter.py:29-33 | the counters and answer of an object creation, the one over the cap counted too |
| RateLimiter.Limiter.RecordEntanglement | mcp_qso_edu/rate_limiter.py:35-39 | the counters and answer of an entanglement |
| RateLimiter.DequeIsLastMinute | mcp_qso_edu/rate_limiter.py:48-51 | with a clock that does not step back the deque is exactly the events let through in the last closed minute |
| RateLimiter.RefusedIffFull | mcp_qso_edu/rate_limiter.py:22-27 | an event is refused for its rate exactly when that minute is full |
| RateLimiter.NoMinuteOverfull | mcp_qso_edu/rate_limiter.py:22-27 | no closed minute of the whole history, wherever it starts, holds more than the limit |
| RateLimiter.SteppingBackOverfills | mcp_qso_edu/rate_limiter.py:22-27 | under any limit of two or more, a clock that steps back lets one event more through in a minute than the limit |
| RateLimiter.HoldsOnAnyClockIff | mcp_qso_edu/rate_limiter.py:22-27 | the limit holds in every minute of every history, however the clock moves, exactly when it is at most one |
| RateLimiter.CapHolds | mcp_qso_edu/rate_limiter.py:29-39 | over any history the objects (entanglements) made are the attempts let through, up to the cap and never beyond |
| RateLimiter.CounterIsAttempts | mcp_qso_edu/rate_limiter.py:29-39 | over any history the counters count attempts: one over the cap counts too, one refused for its rate does not |
| ForceReplay.TakeDue | qso_xr/physics_engine.py:172-180 | the inner loop applies exactly the rows of its tick and stops at the next |
| ForceReplay.Replay | qso_xr/physics_engine.py:166-182 | every tick applies its own rows and then steps, unless a row before tick 1 keeps the cursor at the start |
| ForceReplay.EveryRowOnce | qso_xr/physics_engine.py:166-169 | sorting neither loses nor repeats a row: each tick's actions are those of the rows given for it |
| ForceReplay.AppliedAsAsked | qso_xr/physics_engine.py:166-181 | in the intended run an impulse or force is applied exactly as often as a row of a known body asks for it, if its tick falls within the run, and else never |
| ForceReplay.ImpulseFirst | qso_xr/physics_engine.py:175-179 | a row that asks for both gives the impulse first |
| ForceReplay.TickInBodyOrder | qso_xr/physics_engine.py:166-169 | within a tick the rows act in the order of their bodies' ids |
| ForceReplay.ReplayIsIntendedIff | qso_xr/physics_engine.py:166-181 | the run is the intended one exactly when no row comes before tick 1 or no row would act anyway |
| ForceReplay.EarlyRowBlocks | qso_xr/physics_engine.py:172-181 | a row before tick 1 and one at tick 1 that would act: after one tick there is only the step |

## Left out

- ValidateManifest: states when there is a fault, not which faults are listed; the texts and order of the messages are not modelled.
- CheckPhases: states when a phase list has a fault and the ids it yields, not which faults are listed.
- CheckTasks: states when a task list has a fault and the index it yields, not which faults are listed.
- Parse: which of the parser's errors is raised is not stated, only when one is.
- RefreshReadyStates: task objects are values in the table; two holders of one task object are not modelled.
- WorldMatrices: numbers are reals, so rounding to six digits is not modelled.
- TrsPlaces: takes the unit quaternion that normalisation delivers; the square root behind it is not modelled.
- Project: which nodes a viewpoint makes relevant is a parameter.
- Decide: vote fractions are exact reals, the source divides floats; a proposal's version label is not modelled.
- MergeSandbox: the version snapshot file, its name and the error raised when it is there already are not modelled, and its state hash is a parameter; one time stamp stands for all events of a merge.
- EventsRestored: the reader is modelled on what the writer writes; JSON arrays, which no event holds, numbers as values, and other spellings of one event are not modelled.
- NormalizeOne: letters and digits, and the capitals of LowerOfCapital, are the ASCII ones; Python knows more of both.
- NoNegativeDays: date texts are read as `YYYY-MM-DD`, the one form the importer stores.
- Call: permissions and the rate limiter are one admitted flag, uri rewriting is not modelled, and a call is one step although the source takes the file lock separately for its read and its append.
- Subscriptions by prefix or scene start their live queues after the replay loop and give no gap-free promise; with strict or include_replay switched off the stream does less than what is modelled.
- Faults in the event log found by replay, its signatures, time stamps, event ids and the encoding of cursor tokens.
- `self_parent`, `missing_parent` and `duplicate_node_id` issues of the scene report: each is a test on one node.
- Uri and string checks at the entry of the scene tools; parent texts are taken as already stripped.
- `ready_tasks` of the manifest tool and the registry's summary and agent queries: filters over what is modelled.
- Rows of a manifest whose missing keys make the sorter raise KeyError; the sorter is modelled on rows that have an id.
- Alert edges, environment files and health checks of the mesh integrity tool.
- Sync: fetched rows have an object id; rows without one, which are skipped, are not modelled.
- Archiving on rollover, retries, fetch times and the counters in the checkpoint; stops at other points of a sync than between commit and checkpoint and between rollover and checkpoint.
- Anomalies, scope metrics and the SQL around the state and transition pass.
- Integration of motion and collision detection in the physics engine: arithmetic on floats with rounding.
- Several event files of one lattice, and two lattices writing one file: the source keeps the tail in memory and does not lock.
