# Workflow engine core: model and proofs

This project models the Go core of a BPMN workflow engine (`engine/internal`) and proves what its parts
promise, for all inputs, all runs and all answers of the outside world.

Each part comes as value-level step functions, theorems about every run of those steps, and, where the Go
code changes objects in place, a class whose methods are proved to do exactly those steps.

| module | models |
|---|---|
| `LruModel`, `LruHistory`, `LruInclusion`, `LruCache` | the LRU cache with time to live: linked list between sentinels, table, eviction, expiry |
| `CachedRegistry` | the service registry behind that cache |
| `SagaModel`, `SagaOrchestrator` | the saga, its steps, compensation in reverse order, the error handlers |
| `Bpmn`, `BpmnGraph`, `BpmnValidator` | processes, the parser's scans, the process graph, the validator |
| `Executor`, `InstanceService` | node execution, the two gateway evaluators, the interpreter loop |
| `Hub` | the WebSocket hub: rooms, channels, broadcast |
| `Timers` | timer jobs and due passes |
| `TokenMachine` | the token state machine and its history |
| `Expression`, `Variables`, `Common` | condition and delegate expressions, dynamic values, shared definitions |

The outside world is a parameter. The clock is an argument `now`, one reading for each call. The node
executor, the compensation handler, the repositories, the service registry and the publisher answer from
arbitrary functions of the call number, so theorems hold for every pattern of failures. Two exceptions:
timers are fired with successful publishing only, and the two theorems on instances that run forever assume
reliable publishing (`Reliable`). Where Go ranges over a map, the model picks elements in an arbitrary order
and the result is proved not to depend on it. Gateways follow the code, not section 13.4 of OMG BPMN 2.0.2:
no condition is evaluated and there is a single token.

Where the code does not do what its documentation or names say, the model follows the code:

- The cache exceeds its capacity when the least recently used key is the empty string
  (`SetKeepsCapacityIff`, `EmptyKeyOverflows`). Inclusion holds nevertheless.
- "Compensated" is documented as a successful rollback. The state after a compensation does not depend on
  the answers of the undo calls at all, and a saga with a failed step and no completed one gets that
  status too (`CompensatedIff`, `CompensatedDespiteFailure`).
- The validator accepts processes whose start event has no id and therefore no start node
  (`SoundWithoutStartNode`), and processes that can never get past their start event, because the
  executor takes the first outgoing id for a node id (`SoundProcessCannotRun`; `StartNeedsNodeId` says when,
  `RawIdLoses` for every node that hands on an id this way).
- `Await` bypasses the transition table and overwrites the status before recording it, which breaks the
  history unless the token was waiting already (`UnbrokenIff`, `AwaitBreaksHistory`). It revives finished
  tokens (`AwaitRevives`). Besides, a `Fail` that the table refuses still overwrites the error of a finished
  token (`RefusedFailLeavesError`); `AbsorbedIff` says exactly when a finished token stays as it is.
  `IsTerminal` calls failed tokens terminal although they may be retried (`AbsorbingIff`).
- The completion time of an instance is set in memory only: the statement that stores the instance does not
  mention it, nor does the one that creates it mention the start time (`RowsHaveNoTimes`).
- A hub client that registers again after it was removed makes the hub panic (`ReuseBreaks`); a
  registration is harmless exactly when the client's channel was never closed (`RegistrationIsSafeIff`).
- A client that answers a ping after the hub has dropped it panics (`LateReplyBreaks`); this is the only way
  in which a run of clients that register once can panic (`RunsOnIff`).

## Model

| member | source | states |
|---|---|---|
| `LruInclusion.Inclusion` | engine/internal/integration/registry/cache.go:92-223 | for every history and every pair of capacities, the smaller cache's list is an order-preserving part of the larger one's, shared keys have equal entries, and at most the capacity difference of keys is missing; the empty key needs no exception |
| `LruInclusion.LargerCacheHitsMore` | engine/internal/integration/registry/cache.go:92-143 | every hit of the smaller cache is a hit of the larger with the same value, and the sizes differ by at most the capacity difference |
| `LruHistory.GetAgreesWithHistory` | engine/internal/integration/registry/cache.go:92-223 | a Get returns the value of the latest Set of its key that no Delete or Clear followed, if that Set is at most ttl old and the key was not evicted since, and misses in every other case |
| `LruHistory.EntriesAreLatestSets` | engine/internal/integration/registry/cache.go:92-223 | a cached entry carries value and insertion time of the latest Set; a live latest Set that is not cached was evicted or has expired |
| `LruHistory.RoomyCacheIsATimedMap` | engine/internal/integration/registry/cache.go:92-223 | with room for every key ever set, the cache answers as an unbounded map with a time to live |
| `LruHistory.FreshKeyAnswers` | engine/internal/integration/registry/cache.go:60-143 | in a cache made with a positive bound and a positive ttl, a key set at most ttl ago answers with its value as long as fewer other keys than the bound were looked up or set since |
| `LruHistory.LookupsCountToo` | engine/internal/integration/registry/cache.go:108-143 | with room for two keys, one other key set since is enough to push a key out when an older one was looked up in between |
| `LruHistory.ListIsRecencyOrder` | engine/internal/integration/registry/cache.go:108-143 | the list is strictly ordered by latest use, where a use is a Set or a Get that hits |
| `LruHistory.AccessStamps` | engine/internal/integration/registry/cache.go:108-139 | a cached key was used, and its access stamp is the clock reading of its latest use |
| `LruHistory.AccessStampsFollowList` | engine/internal/integration/registry/cache.go:108-143 | access stamps never increase along the list |
| `LruHistory.EvictionTakesLeastRecentlyUsed` | engine/internal/integration/registry/cache.go:130-133 | an eviction removes exactly one key, the one whose latest use is older than that of every other key |
| `LruHistory.SetKeepsCapacityIff` | engine/internal/integration/registry/cache.go:130-142 | a Set keeps the capacity bound if and only if the key is present, there is room, or the least recently used key is not the empty string |
| `LruHistory.EmptyKeyOverflows` | engine/internal/integration/registry/cache.go:192-199 | two Sets, the first of the empty key, leave a cache of capacity one with two entries |
| `LruHistory.CapacityHolds` | engine/internal/integration/registry/cache.go:117-143 | over every history that never sets the empty key, the size stays within maxEntries |
| `LruHistory.CountersAreExact` | engine/internal/integration/registry/cache.go:92-199 | hits plus misses are the Gets, hits are the Gets that returned a value, evicts are the evictions, over every history |
| `LruModel.RunKeepsInv` | engine/internal/integration/registry/cache.go:92-223 | after every history the listed keys are distinct and are exactly the table's domain |
| `LruCache.LinkedList.constructor` | engine/internal/integration/registry/cache.go:82-89 | two linked sentinels, no keys |
| `LruCache.LinkedList.PushFront` | engine/internal/integration/registry/cache.go:230-237 | keeps next and prev inverse and the nodes distinct; the keys become the new key followed by the old ones |
| `LruCache.LinkedList.FindNode` | engine/internal/integration/registry/cache.go:264-271 | finds the first node with the key, null exactly when the key is not listed |
| `LruCache.LinkedList.Unlink` | engine/internal/integration/registry/cache.go:249-251 | splices one inner node out and keeps the list well linked |
| `LruCache.LinkedList.Remove` | engine/internal/integration/registry/cache.go:246-253 | keeps the list well linked and drops the first occurrence of the key, if any |
| `LruCache.LinkedList.MoveToFront` | engine/internal/integration/registry/cache.go:240-243 | keeps the list well linked; the key comes first, the others keep their order |
| `LruCache.LinkedList.BackKey` | engine/internal/integration/registry/cache.go:256-261 | the last key, or the empty string for an empty list |
| `LruCache.LRUCache.constructor` | engine/internal/integration/registry/cache.go:60-79 | an empty cache; positive bounds are taken over, each in its place, and the others become 1000 entries and five minutes |
| `LruCache.LRUCache.LenIsSize` | engine/internal/integration/registry/cache.go:92-271 | whenever the representation invariant holds, the list's own length field equals the number of table entries |
| `LruCache.LRUCache.Get` | engine/internal/integration/registry/cache.go:92-114 | representation invariant kept; answer and new state are those of the value-level Get, an expired entry being a miss that stays in place |
| `LruCache.LRUCache.Set` | engine/internal/integration/registry/cache.go:117-143 | representation invariant kept; new state is that of the value-level Set with eviction |
| `LruCache.LRUCache.EvictOldest` | engine/internal/integration/registry/cache.go:192-199 | representation invariant kept; removes the back key unless it reads as empty |
| `LruCache.LRUCache.Delete` | engine/internal/integration/registry/cache.go:146-154 | representation invariant kept; removes the key from list and table together |
| `LruCache.LRUCache.Clear` | engine/internal/integration/registry/cache.go:157-163 | a new empty list and table; counters stay |
| `LruCache.LRUCache.CleanupExpired` | engine/internal/integration/registry/cache.go:212-223 | whatever order the table yields its keys in, exactly the unexpired entries remain, in their list order |
| `CachedRegistry.RepliesAreRecent` | engine/internal/integration/registry/cache.go:297-357 | every reply is the repository's answer of this moment or one it gave to the same query at most ttl ago with no invalidating call since |
| `CachedRegistry.CacheHoldsFetches` | engine/internal/integration/registry/cache.go:297-396 | what the cache was last set to for a query is exactly the latest answer that had to be fetched for it and was not invalidated since |
| `CachedRegistry.ServedExactly` | engine/internal/integration/registry/cache.go:297-357 | after every history, a query is served from the cache exactly while its latest fetch is at most ttl old, not invalidated and not evicted; then that fetch is the reply whatever the repository would say, and otherwise the reply is the repository's |
| `CachedRegistry.KeysDiffer` | engine/internal/integration/registry/cache.go:299-341 | different queries never share a cache key |
| `CachedRegistry.RegistrationDropsExactly` | engine/internal/integration/registry/cache.go:360-396 | after every history, a successful registration takes the service of its name and the full list out of service and no other cached answer; lists by type go on being served unchanged |
| `CachedRegistry.UnregistrationDropsAll` | engine/internal/integration/registry/cache.go:377-386 | after every history, a successful unregistration leaves no query served from the cache |
| `CachedRegistry.RunAppend` | engine/internal/integration/registry/cache.go:297-396 | performing cache operations one by one is running the trace the theorems speak about |
| `CachedRegistry.OneMoreCall` | engine/internal/integration/registry/cache.go:297-396 | the cache after a history and one call more is what that call's operations make of it |
| `CachedRegistry.CachedRegistryRepository.Find` | engine/internal/integration/registry/cache.go:297-357 | Discover, DiscoverByName and ListAll, after any earlier calls on a cache that started empty: while the latest fetch of the query is still cached it is the reply and the repository is not asked, otherwise the repository is asked once and its answer is the reply; what is stored follows the recorded calls |
| `CachedRegistry.CachedRegistryRepository.RegisterService` | engine/internal/integration/registry/cache.go:360-396 | a successful registration deletes the name entry and the full list, a failed one nothing; the cache stays what the recorded calls made of it |
| `CachedRegistry.CachedRegistryRepository.UnregisterService` | engine/internal/integration/registry/cache.go:377-386 | a successful unregistration clears the cache, a failed one leaves it; the cache stays what the recorded calls made of it |
| `CachedRegistry.CachedRegistryRepository.Tick` | engine/internal/integration/registry/cache.go:202-223 | a tick of the background loop performs the cleanup the histories speak about |
| `SagaModel.RunIsBalanced` | engine/internal/core/saga/orchestrator.go:82-258 | over every run and for every step: undo requests never exceed successful executions, a completed step has an execution to spare, its compensation input is what its executions put out, and the saga variables are the initial ones overridden by all outputs in order |
| `SagaModel.CompletedIff` | engine/internal/core/saga/orchestrator.go:101-258 | over every run, a step is completed exactly when some execution of it succeeded and since then neither an execution of it failed nor a compensation was started |
| `SagaModel.ExecuteCompletes` | engine/internal/core/saga/orchestrator.go:150-186 | after every run, a successful execution completes the step with that call's output and time, points the saga at it, merges the output into the variables and changes nothing else |
| `SagaModel.ExecuteFails` | engine/internal/core/saga/orchestrator.go:129-148 | after every run, a failing execution fails the step, compensates every other completed step, and leaves the saga failed if there was one and compensated if not |
| `SagaModel.UnknownNodeFails` | engine/internal/core/saga/orchestrator.go:110-121 | after every run, a step without its node fails, and nothing is executed or compensated |
| `SagaModel.UndoRequestsExact` | engine/internal/core/saga/orchestrator.go:205-224 | a compensation requests exactly one undo of each completed step that names an undo node and none of any other |
| `SagaModel.ExecuteThenCompensate` | engine/internal/core/saga/orchestrator.go:101-258 | after every run, compensating right after a successful execution requests exactly one undo of that step if it names an undo node |
| `SagaModel.UndoInputsAreOutputs` | engine/internal/core/saga/orchestrator.go:156-170 | every undo request of every run carries exactly the accumulated outputs of the step it undoes |
| `SagaModel.UndoOrder` | engine/internal/core/saga/orchestrator.go:208-224 | undo positions are strictly decreasing and are exactly the completed steps that name an undo node |
| `SagaModel.UndoCallsFollowOrder` | engine/internal/core/saga/orchestrator.go:208-224 | the n-th undo call is for the n-th undo position, with that step's undo node, undo name and compensation input |
| `SagaModel.UndosFollowOrder` | engine/internal/core/saga/orchestrator.go:208-224 | the undo events counted over runs are those same calls, position by position |
| `SagaModel.CompensationOutcome` | engine/internal/core/saga/orchestrator.go:226-248 | if some step was completed: afterwards none is, exactly the formerly completed ones are compensated, all others are untouched, and the saga is compensated if and only if no step failed |
| `SagaModel.CompensatedIff` | engine/internal/core/saga/model.go:28-29 | after every run, compensating reaches the status documented as successfully compensated exactly when no step failed or none was completed; it reaches it with a failed step left exactly when none was completed and one failed, and then requests no undo at all |
| `SagaModel.CompensatedDespiteFailure` | engine/internal/core/saga/orchestrator.go:129-202 | a saga whose only step was added and then failed in execution ends up compensated |
| `SagaModel.SecondCompensationIsSilent` | engine/internal/core/saga/orchestrator.go:189-258 | compensating again issues no undo call |
| `SagaModel.RunExtends` | engine/internal/core/saga/orchestrator.go:82-258 | over every run steps are only appended, and node ids, undo ids, names and inputs never change |
| `SagaOrchestrator.Saga.constructor` | engine/internal/core/saga/model.go:132-145 | a pending saga without steps |
| `SagaOrchestrator.Saga.AddStep` | engine/internal/core/saga/model.go:148-161 | appends one pending step and changes nothing else |
| `SagaOrchestrator.Saga.GetCompletedSteps` | engine/internal/core/saga/model.go:164-172 | the completed steps in reverse order, empty exactly when none is completed |
| `SagaOrchestrator.Saga.GetPendingSteps` | engine/internal/core/saga/model.go:175-183 | the pending steps after the current one, each once and in order |
| `SagaOrchestrator.Saga.CanCompensate` | engine/internal/core/saga/model.go:186-193 | true exactly when some completed step names an undo node |
| `SagaOrchestrator.Orchestrator.StartSaga` | engine/internal/core/saga/orchestrator.go:66-79 | a running saga is written; it is returned, or none when the write is refused |
| `SagaOrchestrator.Orchestrator.AddStep` | engine/internal/core/saga/orchestrator.go:82-98 | the step is appended in memory whether or not it can be stored, and the new state is what is written |
| `SagaOrchestrator.Orchestrator.ExecuteStep` | engine/internal/core/saga/orchestrator.go:101-186 | new saga, executor calls, undo calls, outcome and written states in all five cases; a failing execution compensates at once, and what that compensation writes is its own state, not the later failed one |
| `SagaOrchestrator.Orchestrator.Compensate` | engine/internal/core/saga/orchestrator.go:189-258 | new saga, undo calls in order, stored state and result; the new saga does not depend on what the undo calls answer |
| `SagaOrchestrator.Orchestrator.UndoEach` | engine/internal/core/saga/orchestrator.go:208-224 | one call for each listed step with an undo node, in list order, whatever the calls answer |
| `SagaOrchestrator.Orchestrator.MarkEach` | engine/internal/core/saga/orchestrator.go:228-238 | marks exactly the completed steps and reports whether no step failed |
| `SagaOrchestrator.Orchestrator.CompensateOne` | engine/internal/core/saga/orchestrator.go:261-302 | one handler call with the step's undo node and compensation input; nothing else reaches the saga |
| `SagaOrchestrator.Orchestrator.CompleteSaga` | engine/internal/core/saga/orchestrator.go:321-336 | the saga is completed in memory even when it cannot be stored, and that state is what is written |
| `SagaOrchestrator.Orchestrator.FailSaga` | engine/internal/core/saga/orchestrator.go:339-354 | the saga is failed in memory even when it cannot be stored, and that state is what is written |
| `SagaOrchestrator.Orchestrator.HandleError` | engine/internal/core/saga/error_handler.go:27-69 | compensates and writes the result exactly when some completed step names an undo node, and reports a compensation exactly when that write is also accepted |
| `SagaOrchestrator.Orchestrator.HandleServiceTaskError` | engine/internal/core/saga/error_handler.go:163-209 | adds and writes a pending step for a compensatable task, then compensates exactly when a completed step names an undo node; the code tells a stored compensation, an unstored one and none apart |
| `Bpmn.ConvertFlows` | engine/internal/core/bpmn/parser.go:335-351 | flows keep ids, names, ends and order; the condition is absent exactly when its text is empty |
| `Bpmn.GetOutgoingFlows` | engine/internal/core/bpmn/parser.go:405-413 | the flows from an element, in order |
| `Bpmn.GetIncomingFlows` | engine/internal/core/bpmn/parser.go:416-424 | the flows to an element, in order |
| `Bpmn.ScanBoundaryEvents` | engine/internal/core/bpmn/parser.go:427-463 | the boundary events attached to an activity, all or only timers or only errors, in order |
| `Bpmn.SelectMembers` | engine/internal/core/bpmn/parser.go:405-463 | a scan holds exactly the matching elements and is empty exactly when nothing matches |
| `Bpmn.SelectKeepsOrder` | engine/internal/core/bpmn/parser.go:405-463 | a scan keeps order and multiplicity: its elements stand at strictly rising positions, and no other position matches |
| `BpmnGraph.BuildGraph` | engine/internal/core/bpmn/graph.go:50-111 | every index of the graph equals the plain scan of the process: nodes by id, edges by source in flow order, events, gateways, tasks and boundary events |
| `BpmnGraph.NodeMapFacts` | engine/internal/core/bpmn/graph.go:54-62 | each node is filed under its own non-empty id and is an element; every element with an id has a node there |
| `BpmnGraph.StartNodeIff` | engine/internal/core/bpmn/graph.go:203-209 | a start node is found exactly when some start event has an id |
| `BpmnGraph.LastElementIsNode` | engine/internal/core/bpmn/graph.go:54-62 | of several elements with one id, the last is the node |
| `BpmnGraph.EventsListedByKind` | engine/internal/core/bpmn/graph.go:64-91 | the event lists hold exactly the start, end and boundary events that have an id |
| `BpmnGraph.GatewaysListedByKind` | engine/internal/core/bpmn/graph.go:70-76 | each list of gateways holds exactly the gateways of its kind that have an id |
| `BpmnGraph.TasksListedByKind` | engine/internal/core/bpmn/graph.go:77-83 | each list of tasks holds exactly the tasks of its kind that have an id; compensating service tasks are in none |
| `BpmnGraph.FlowHasEdge` | engine/internal/core/bpmn/graph.go:95-108 | a flow with an existing target has its edge at its rank among the flows of its source |
| `BpmnGraph.RanksDiffer` | engine/internal/core/bpmn/graph.go:95-108 | two flows never share an edge |
| `BpmnGraph.EdgeHasFlow` | engine/internal/core/bpmn/graph.go:95-108 | every edge is the edge of a flow |
| `BpmnGraph.BoundaryEventsForActivity` | engine/internal/core/bpmn/graph.go:288-312 | the three boundary-event queries filter the index in order |
| `BpmnGraph.BoundaryIndexIsScanIff` | engine/internal/core/bpmn/graph.go:83-91 | index and parser scan answer the same if and only if the activity id is not empty and the attached events have ids, or nothing is attached |
| `BpmnGraph.GetIncomingElements` | engine/internal/core/bpmn/graph.go:228-242 | as a multiset, whatever order the edge table yields its sources in: each existing source node once for each of its edges to the element |
| `BpmnGraph.IncomingInvertsEdges` | engine/internal/core/bpmn/graph.go:228-242 | a node comes back exactly as often as there are flows from it to the element |
| `BpmnGraph.EvaluateExclusiveGateway` | engine/internal/core/bpmn/graph.go:148-182 | by positions: the target of the first candidate flow without a condition, or of the first candidate when each has one; nothing exactly when no flow leaves for an existing node |
| `BpmnGraph.ChooseFlow` | engine/internal/core/bpmn/graph.go:167-182 | by positions: the first candidate without a condition, else the first, else none |
| `BpmnGraph.EvaluateInclusiveGateway` | engine/internal/core/bpmn/graph.go:185-200 | the existing targets of all flows, in order |
| `BpmnGraph.FindNextNodes` | engine/internal/core/bpmn/graph.go:114-145 | nothing for an unknown id, else by gateway type |
| `BpmnGraph.ExclusiveNextNode` | engine/internal/core/bpmn/graph.go:148-182 | the next node of an exclusive gateway, by the position of the flow that leads there |
| `BpmnValidator.Validator.ValidateEvents` | engine/internal/core/bpmn/validator.go:75-117 | an error is added exactly when start or end event is missing or an event lacks its flow |
| `BpmnValidator.Validator.ValidateFlow` | engine/internal/core/bpmn/validator.go:135-153 | an error is added exactly when id, ends or distinctness of the flow is violated |
| `BpmnValidator.Validator.ValidateSequenceFlows` | engine/internal/core/bpmn/validator.go:119-158 | errors exactly for bad flows, warnings exactly for unconnected elements |
| `BpmnValidator.Validator.CheckOrphanElements` | engine/internal/core/bpmn/validator.go:160-179 | a warning, never an error, exactly when some element with an id is in no flow |
| `BpmnValidator.Validator.ValidateGateways` | engine/internal/core/bpmn/validator.go:181-240 | an error exactly when an exclusive, inclusive or parallel gateway has neither incoming nor outgoing |
| `BpmnValidator.Validator.ValidateTasks` | engine/internal/core/bpmn/validator.go:242-305 | an error exactly when a user, service, script, receive or send task lacks incoming or outgoing |
| `BpmnValidator.Validator.ValidateBoundaryEvent` | engine/internal/core/bpmn/validator.go:331-368 | an error exactly when attachment, definition, timer or outgoing rule is violated |
| `BpmnValidator.Validator.ValidateBoundaryEvents` | engine/internal/core/bpmn/validator.go:307-374 | an error exactly when some boundary event violates its rules |
| `BpmnValidator.Validator.Validate` | engine/internal/core/bpmn/validator.go:38-73 | no error is reported if and only if there is a process and it satisfies every rule |
| `BpmnValidator.SoundFlowIsEdge` | engine/internal/core/bpmn/validator.go:119-158 | in a process without errors every flow is an edge between two distinct existing nodes |
| `BpmnValidator.SoundElement` | engine/internal/core/bpmn/validator.go:75-368 | what the rules ask of each element of a process without errors, by its kind |
| `BpmnValidator.SoundEdgesCountFlows` | engine/internal/core/bpmn/validator.go:119-158 | in a process without errors every node has as many edges as flows |
| `BpmnValidator.SoundEdgesTotal` | engine/internal/core/bpmn/validator.go:119-158 | in a process without errors the edges, summed over all nodes, are as many as the flows |
| `BpmnValidator.SoundBoundaryKeysAreNodes` | engine/internal/core/bpmn/validator.go:307-341 | in a process without errors every activity with indexed boundary events is a node |
| `BpmnValidator.SoundStartNode` | engine/internal/core/bpmn/validator.go:92-97 | in a process without errors a start node is found if all elements have ids, and exactly when some start event has one |
| `BpmnValidator.SoundWithoutStartNode` | engine/internal/core/bpmn/validator.go:92-97 | a process without errors whose graph has no start node |
| `Executor.GatewaysAgreeIff` | engine/internal/core/executor/executor.go:339-404 | on a parsed process the executor and the graph name the same next node, or both none, if and only if the executor's flow leads to an existing node or there is no flow |
| `Executor.GatewaysAgree` | engine/internal/core/executor/executor.go:339-404 | they agree whenever every flow target exists |
| `Executor.GatewayChoiceAt` | engine/internal/core/executor/executor.go:339-404 | by positions: an exclusive gateway follows its first flow without a condition or with an empty one, or its first flow when each has one; the others follow their first flow; no choice exactly when no flow leaves |
| `Executor.PublishWithRetry` | engine/internal/core/executor/delegate_expression.go:95-114 | succeeds exactly when one of three attempts does, stops at the first that does, and has slept 0, 100 or 300 ms |
| `InstanceService.RoundWaitsIff` | engine/internal/core/executor/executor.go:89-435 | an instance waits exactly at user tasks, receive tasks, catch events, and service tasks whose topic or delegate was accepted, each for its own reason; a class comes before an expression, an expression before a delegate, a delegate before a topic |
| `InstanceService.RoundCompletesIff` | engine/internal/core/executor/executor.go:89-435 | an instance completes with its variables exactly at end and throw events, script and manual tasks, service tasks with a class or without any implementation, and nodes that hand on the empty id; and at service tasks whose expression evaluates, with the result flag added |
| `InstanceService.RoundGoesOnIff` | engine/internal/core/executor/executor.go:89-435 | an instance goes on exactly to the non-empty id its node hands on: the first outgoing id as it stands, or the target of the chosen flow; its variables do not change |
| `InstanceService.RoundFailsIff` | engine/internal/core/executor/executor.go:89-435 | an instance stops in error exactly at a missing node, an unsupported kind, a start or boundary event without outgoing ids, a refused message, a gateway without flows, an expression that does not evaluate, a delegate or topic that was not accepted |
| `InstanceService.StopsOrRevisits` | engine/internal/service/instance_service.go:103-161 | an instance stops within one round more than there are nodes, or comes to some node twice |
| `InstanceService.StopsIffStopsEarly` | engine/internal/service/instance_service.go:103-161 | with reliable publishing an instance stops at all if and only if it has stopped by then |
| `InstanceService.OutlivesForever` | engine/internal/service/instance_service.go:103-161 | with reliable publishing an instance still running by then runs forever |
| `InstanceService.AcyclicStops` | engine/internal/service/instance_service.go:103-161 | when some rank falls along the successor relation, every instance stops within that bound |
| `InstanceService.VariablesDoNotSteer` | engine/internal/service/instance_service.go:113-160 | two running instances of a process are at the same node after the same number of rounds, whatever their variables |
| `InstanceService.RawIdLoses` | engine/internal/core/executor/executor.go:132-144 | in any round at a start event, send task or boundary event, whose raw outgoing id is handed on, the instance stands on no node next exactly when that id is neither empty nor a node's and no refused publish failed the node; executor.go:328 and 432 do the same as 141 |
| `InstanceService.LostEndsInError` | engine/internal/service/instance_service.go:117-123 | an instance that stands on no node is in the error status from the next round on |
| `InstanceService.StartNeedsNodeId` | engine/internal/core/executor/executor.go:132-144 | after its start event an instance stands on no node exactly when the raw id handed on is neither empty nor a node's, and then ends in the error status whatever its variables and the answers of its surroundings; it completes at once exactly when that id is empty |
| `InstanceService.SoundProcessCannotRun` | engine/internal/core/executor/executor.go:139-143 | one process without validation errors, listing its flow's id as outgoing, such that in every graph of it every instance is in the error status from its second round on |
| `InstanceService.SoundNodesHandOn` | engine/internal/core/executor/executor.go:132-144 | in a process without errors no start event, boundary event or accepted send task fails; each hands on its first outgoing id |
| `InstanceService.Service.ExecuteInstance` | engine/internal/service/instance_service.go:103-161 | the loop is at the model's cursor after any number of rounds; a stop in error, waiting or completed stores exactly that status, only completion stores variables, and no stop stores a time |
| `InstanceService.RowsHaveNoTimes` | engine/internal/integration/postgres/repository.go:385-413 | over every history of creations and updates, a stored row has status and variables of its latest write, and never a start or completion time, whatever the written instances carried |
| `InstanceService.Service.CreateInstance` | engine/internal/integration/postgres/repository.go:285-315 | a new row stores status and variables and neither time; an existing id is refused |
| `InstanceService.Service.UpdateInstance` | engine/internal/integration/postgres/repository.go:370-413 | the stored row changes exactly when it exists and the write is accepted, and then in status and variables only |
| `InstanceService.Service.UpdateInstanceStatus` | engine/internal/service/instance_service.go:212-223 | changes the status of an existing row that can be read and written, and nothing else |
| `InstanceService.Service.CompleteInstance` | engine/internal/service/instance_service.go:225-245 | stores status and variables of a completed instance when its row can be read and written, and nothing otherwise; the completion time set in memory is not stored |
| `InstanceService.MergeVariables` | engine/internal/service/instance_service.go:247-256 | the existing variables overridden by the new ones, in whatever order the maps yield their keys |
| `Hub.DeliveryIsGapFree` | engine/internal/api/websocket/hub.go:45-88 | over every run of clients that register once, the broadcasts that went into a client's channel, with replies of its own in between, are an initial part of the broadcasts to its instance since it registered, and all of them while it is a member |
| `Hub.NothingAfterLeaving` | engine/internal/api/websocket/hub.go:57-85 | a client that has left gets nothing more and stays out |
| `Hub.TakesInOrder` | engine/internal/api/websocket/connection.go:88-130 | the write pump takes messages out in the order they went in, so n takes are the n oldest messages |
| `Hub.RunIsSafe` | engine/internal/api/websocket/hub.go:45-88 | over every such run the hub never closes a channel twice and never sends on a closed one; members sit in their own room with open channels of at most 256 messages |
| `Hub.RunsOnIff` | engine/internal/api/websocket/connection.go:154-165 | such a run never panics at all if and only if no client replies after it is gone, that is, registered and no longer a member |
| `Hub.ClosedIffGone` | engine/internal/api/websocket/hub.go:57-85 | over every such run, the hub has closed exactly the channels of the clients that are gone |
| `Hub.LateReplyBreaks` | engine/internal/api/websocket/connection.go:141-165 | a client that registers, leaves and replies panics |
| `Hub.ReuseBreaks` | engine/internal/api/websocket/hub.go:48-71 | a client that registers, leaves, registers and leaves again makes the hub panic |
| `Hub.RegistrationIsSafeIff` | engine/internal/api/websocket/hub.go:48-88 | after a registration in any safe state, the client's removal and the next broadcast to its instance go through exactly when its channel had not been closed before |
| `Hub.Hub.RegisterClient` | engine/internal/api/websocket/hub.go:48-55 | the client joins its room, created if needed |
| `Hub.Hub.UnregisterClient` | engine/internal/api/websocket/hub.go:57-69 | a member leaves, its channel is closed, an empty room is dropped; anyone else is ignored |
| `Hub.Hub.BroadcastMessage` | engine/internal/api/websocket/hub.go:71-85 | whatever order the room yields its members in: each gets the message or, if full, is closed and dropped |
| `Hub.Hub.SendReply` | engine/internal/api/websocket/connection.go:154-165 | a reply goes into the client's own channel, is dropped when that is full, and panics when the hub closed it |
| `Hub.Hub.GetClientCount` | engine/internal/api/websocket/hub.go:115-123 | the size of the room, zero when there is none |
| `Timers.RunIsAccounted` | engine/internal/integration/nats/timer.go:91-301 | over every run: commands published for a job equal its attempts, at most three for a repeating job and one for any other; a completed job fired exactly as often as its kind allows |
| `Timers.FinishedStaysFinished` | engine/internal/integration/nats/timer.go:162-301 | over every continuation, completed and cancelled rows never change and never fire again |
| `Timers.CancelledNeverFires` | engine/internal/integration/nats/timer.go:162-172 | a pending job that is cancelled stays cancelled and is never fired, whatever calls follow |
| `Timers.FiresKeepTheInterval` | engine/internal/integration/nats/timer.go:233-301 | over every run, a job that has fired before fires again only if it repeats, and not before its interval has passed |
| `Timers.PassLowersTotal` | engine/internal/integration/nats/timer.go:192-301 | on every reachable table, a pass over r rows lowers the total of remaining fires by exactly r |
| `Timers.FiresAreConserved` | engine/internal/integration/nats/timer.go:91-301 | over every run, the fires granted to all scheduled jobs equal the commands published, the fires still to come and the fires forfeited by cancelling |
| `Timers.FiresAreAttempts` | engine/internal/integration/nats/timer.go:242-301 | over every run, the commands published equal the sum of the attempt counts |
| `Timers.RunIsOrdered` | engine/internal/integration/nats/timer.go:91-301 | over every run, the rows of the table are listed once each |
| `Timers.PassFiresEachRowOnce` | engine/internal/integration/nats/timer.go:211-227 | a pass fires each of its rows once and leaves every other row as it was |
| `Timers.ShortPassFiresAllDue` | engine/internal/integration/nats/timer.go:194-203 | a pass that stays below its limit fires every due row |
| `Timers.TimerManager.ScheduleTimer` | engine/internal/integration/nats/timer.go:91-147 | inserts a new pending row with three attempts, due after the duration, repeating with it exactly for cycle timers |
| `Timers.TimerManager.CancelTimer` | engine/internal/integration/nats/timer.go:162-172 | cancels a pending row and no other |
| `Timers.TimerManager.ProcessDueTimers` | engine/internal/integration/nats/timer.go:192-230 | fires the queried rows in order |
| `Timers.TimerManager.ExecuteTimer` | engine/internal/integration/nats/timer.go:233-301 | one more attempt and command; due again when it repeats and has attempts left, completed otherwise |
| `TokenMachine.TableRunsAreWalks` | engine/internal/core/statemachine/statemachine.go:78-145 | over every run without Await, history is an unbroken walk in the table from pending to the current status |
| `TokenMachine.UnbrokenIff` | engine/internal/core/statemachine/statemachine.go:148-160 | with Await, history stays unbroken if and only if every Await met an already waiting token |
| `TokenMachine.AwaitBreaksHistory` | engine/internal/core/statemachine/statemachine.go:148-160 | one Await on a new token leaves a history that does not start at pending |
| `TokenMachine.HistoryEntries` | engine/internal/core/statemachine/statemachine.go:78-165 | over every run the last entry ends in the current status and each entry is a table edge or waiting to waiting |
| `TokenMachine.StepByOperation` | engine/internal/core/statemachine/statemachine.go:41-165 | from which statuses each operation goes through and where it leads; from all others it changes at most the error |
| `TokenMachine.StampsFollowHistory` | engine/internal/core/statemachine/statemachine.go:78-111 | over every run, the started, completed and updated stamps are the times of the latest entries into active, into a final status, and of all |
| `TokenMachine.CompletedIsAbsorbing` | engine/internal/core/statemachine/statemachine.go:41-52 | no table-checked operation changes anything of a completed or terminated token but its error |
| `TokenMachine.AbsorbedIff` | engine/internal/core/statemachine/statemachine.go:41-160 | over every run on a completed or terminated token, everything but its error is unchanged if and only if no Await is among the operations; all of it is unchanged if and only if, besides, the last Fail with an error carried the error the token already had |
| `TokenMachine.ErrorIsLastError` | engine/internal/core/statemachine/statemachine.go:122-130 | over every run on any token, its error is that of the last Fail that carried one, allowed or not, else the one it had |
| `TokenMachine.RefusedFailLeavesError` | engine/internal/core/statemachine/statemachine.go:122-130 | a Fail that the table refuses on a finished token still stores its error |
| `TokenMachine.AbsorbingIff` | engine/internal/core/statemachine/statemachine.go:173-177 | no table-checked run ever moves a token if and only if its status counts as terminal and is not failed; failed is the one status that counts as terminal and that some such run leaves |
| `TokenMachine.Token.constructor` | engine/internal/core/statemachine/model.go:186-198 | a pending token with empty history |
| `TokenMachine.StateMachine.constructor` | engine/internal/core/statemachine/statemachine.go:15-60 | the table of allowed moves |
| `TokenMachine.StateMachine.CanTransition` | engine/internal/core/statemachine/statemachine.go:63-76 | true exactly for the moves of the table |
| `TokenMachine.StateMachine.Transition` | engine/internal/core/statemachine/statemachine.go:79-110 | an allowed move records history, status and stamps; any other changes nothing |
| `TokenMachine.StateMachine.Fail` | engine/internal/core/statemachine/statemachine.go:123-130 | stores the error even when the move is refused |
| `TokenMachine.StateMachine.Start` | engine/internal/core/statemachine/statemachine.go:113-115 | goes through exactly from pending, waiting, failed and suspended, to active, recorded as start |
| `TokenMachine.StateMachine.Complete` | engine/internal/core/statemachine/statemachine.go:118-120 | goes through exactly from active, to completed, recorded as complete |
| `TokenMachine.StateMachine.Terminate` | engine/internal/core/statemachine/statemachine.go:133-135 | goes through from every status but completed and terminated, to terminated, recorded as terminate |
| `TokenMachine.StateMachine.Suspend` | engine/internal/core/statemachine/statemachine.go:138-140 | goes through exactly from active and waiting, to suspended, recorded as suspend |
| `TokenMachine.StateMachine.Resume` | engine/internal/core/statemachine/statemachine.go:143-145 | goes through exactly from pending, waiting, failed and suspended, to active, recorded as resume |
| `TokenMachine.StateMachine.Trigger` | engine/internal/core/statemachine/statemachine.go:163-165 | goes through exactly from pending, waiting, failed and suspended, to active, recorded as trigger |
| `TokenMachine.StateMachine.Await` | engine/internal/core/statemachine/statemachine.go:148-160 | overwrites the status first and records waiting to waiting |
| `Expression.EvaluatePrinted` | engine/internal/core/executor/expression.go:20-121 | for operands without operator characters or outer space, evaluating the printed comparison applies exactly the printed operator to exactly the printed operands |
| `Expression.DispatchUndoesPrinting` | engine/internal/core/executor/expression.go:25-43 | dispatch and split give back operator and both operands, for all six operators |
| `Expression.BodyOfWrapped` | engine/internal/core/executor/expression.go:21-23 | unwrapping removes exactly the wrapper, whatever the text inside |
| `Expression.NotEqualNegatesEqual` | engine/internal/core/executor/expression.go:49-69 | != always answers the negation of ==, NaN included |
| `Expression.OrderNegation` | engine/internal/core/executor/expression.go:71-121 | >= negates < and <= negates > if and only if neither side is NaN; all four fail together |
| `Expression.OrdersMeanOrder` | engine/internal/core/executor/expression.go:71-121 | on a numeric variable and a number the four order comparisons are the four relations on reals, on infinities as on the extended line, and all false with NaN |
| `Expression.OrderFailsIff` | engine/internal/core/executor/expression.go:71-121 | an order comparison fails exactly when the left side is no numeric variable or the right side no number |
| `Expression.EqualsQuotedText` | engine/internal/core/executor/expression.go:49-69 | equality with a quoted text compares the printed value of the variable with that text |
| `Expression.BareReadsAs` | engine/internal/core/executor/expression.go:152-178 | a right-hand side reads as a truth value, a number, or else the variable of that name |
| `Expression.BareVariableIff` | engine/internal/core/executor/expression.go:123-144 | an expression without operator holds exactly unless the variable it names is missing, nil, false, zero or empty |
| `Expression.DelegateRoundTrip` | engine/internal/core/executor/delegate_expression.go:22-34 | accepts exactly the texts ${service.action}, up to outer space, with two plain words, and returns those words |

## Left out

- LruCache.LRUCache.Set: table entries are values in the model's table; the source changes them through pointers that never leave the cache.
- Clock readings inside one call are one reading; the source reads the clock twice in `Set` and in `Transition`.
- Counters, sizes and times are unbounded integers; 64-bit wrap-around of the cache counters is not modelled.
- Locking and data races: each cache operation, hub event and timer pass is one atomic step; `Get` changing the list under a read lock is not modelled.
- The schedule of the cache's background loop, whose ticks come at arbitrary times here; `HitRatio`, the cache warmer, the legacy cache wrappers and the NOTIFY listener.
- Heartbeats and stale-service cleanup in the registry; they do not touch the cache, so a cached answer may carry an old status for up to ttl.
- Maps shared by reference: a handler or node that changes the variables map it was given also changes the caller's map; variables are values here.
- Saga ids, instance and process keys, step ids, error message texts and creation times; reading and deleting sagas by id.
- SagaOrchestrator.Orchestrator.CompensateOne: what the handler returns is stored in a copy of the step and lost in the source; the copy is not modelled.
- SagaOrchestrator.Orchestrator.FailSaga: the error text that is stored with the code is not modelled.
- The compensation executor that runs an undo node through the node executor.
- XML decoding: processes start out decoded; only the conversion of sequence flows is modelled. Nil entries in the element list, which the parser never produces and every loop skips, do not occur.
- The graph is a value that `BuildGraph` builds up round by round; the source fills one struct through a pointer and never changes it afterwards.
- BpmnValidator.Validator.Validate: of the warnings only unconnected elements are modelled, and message texts are names without the interpolated ids; no warning affects the error list or the graph.
- BpmnValidator.Validator.ValidateEvents: the warning about several start events is not modelled.
- BpmnValidator.Validator.ValidateGateways: the warnings about missing default flows and unequal flow counts are not modelled.
- BpmnValidator.Validator.ValidateTasks: the warnings about missing implementations, scripts and message references are not modelled.
- BpmnValidator.Validator.ValidateBoundaryEvent: the warnings about errorRef and about incoming flows of non-interrupting events are not modelled.
- BpmnValidator.Validator.ValidateBoundaryEvents: the warnings about several interrupting events on one activity are not modelled.
- Message flow validation, gateway and task listings of the graph, `IsEndNode`, `IsStartNode` and `HasInterruptingBoundaryEvent`.
- Timer duration parsing for boundary events, task handler registration, logging, and the contents of published commands.
- InstanceService.Service.ExecuteInstance: the source loop has no bound; the method follows its first `limit` rounds, for every `limit`, and the theorems about rounds say when it ends.
- Starting, suspending, resuming and terminating instances, and continuing a waiting one: a service response is refused unless the instance is running and then restarts at an empty node id.
- Concurrent updates of one instance row; the repository has no version check. Other columns of the row, and which status names the database schema admits: a refused write is any write.
- WebSocket connections and pumps: the write pump appears as the event that takes one message out of a channel, the read pump as the replies it sends. Client channels are rows of the hub object instead of objects of their own.
- Timers.TimerManager.ExecuteTimer: publishing always succeeds; the failure path, `TimerFired` and a manager without publisher are not modelled.
- The update time in the statements of the timer manager: a trigger of the table (infrastructure/postgres/init/01_schemas.sql:273-275) stamps every update with the current time, and rows are modelled with that stamp.
- Timer row cleanup, listing of pending timers, and SQL isolation; the due query is an arbitrary answer that meets its WHERE, ORDER BY and LIMIT clauses.
- The response subscriber and its dead letter queue.
- Expression.EvaluatePrinted: number parsing and value printing are arbitrary functions; rounding of 64-bit floats is not modelled.
- HTTP handlers, configuration, the other services, SQL scripts and the web front end.
