# Runtime verification

A Dafny model of the path from a submitted request to a CAN frame and back, with proofs of what its four stacked
protocols promise. Run `dafny verify dfyconfig.toml` here.

## What is modelled

- **Device.** `CanProtocol` (the two frame codecs), `VirtualDevice` (the replay cache), `TimeBudget` and `CommandIds`
  (durations, budgets, id allocators).
- **Bridge.** `DeviceBridge` is the retry loop, the receive loop and the STOP exchange as one class; `BridgeWire` states
  what a goal may put on the bus and what its result proves; `RetryOnce` puts a lossy bus between bridge and device,
  `Restarts` a device that restarts while the frames of a goal arrive.
- **Executor.** `ExecutorWorker` is the worker with its polling loops; `ExecutorTerminal` the race of callbacks, worker
  threads and exceptions for the terminal transition, the task event and the busy gate; `ExecutorCancel` the child
  cancel.
- **Orchestrator.** `OrchestratorWorkflow` is the tick loop and finish(); `OrchestratorTerminal` the race of cancel
  requests, terminal reservation and transition; `OrchestratorCancel` the child cancel.
- **Gateway.** `Requests` and `RequestRegistry` are the bounded registry, `Ledger` the durable ledger over its table,
  `Gateway` all threads of the service as one state machine with crashes, `GatewayOwners` and `GatewayProof` its
  invariants and results, `GatewayAnswers` what clients are shown and what is recorded, `GatewayRuns` the runs that
  show which assumptions they need, `GatewayCancel` the cancel of one pending goal.
- **Across layers.** `CancelHandshake` is the "cancel wanted, handle arrives late, dispatch may throw" protocol, proved
  once; the three cancel modules simulate it. `CancelStack` links the worker scripts and
  terminal runs of orchestrator and executor with the bridge's script, looks at what the gateway records of them, and
  follows their frames to the device. `EndToEnd` counts what the device does for one request id of the gateway.
- **Beside them.** `Recorder`, `MarkerTrigger`, `HistoryStats`. `Common` and `Outcomes` hold shared types.

Two forms recur. Where threads race, a state and a `Step` function model each critical section as one event, a disabled
event changes nothing, and a theorem about `Run(..., events)` for every event list, or about every `Reachable` state, is a
theorem about every interleaving. Where one thread runs a loop, the values it will observe (flags, clock comparisons,
socket results, hooks that throw) form a script, a function gives the specified result, and an imperative method is proved
to compute it for every script. Classes hold the fields the source updates in place; counters and logs that the source
does not have (`attempts`, `transitions`, `wire`, `claims`, ...) record effects so that properties can speak about them.

Environment: a send may fail or throw, a callback may come late or never, a database call may fail, a clock is a number
or the result of a comparison with it, a table is a map or a sequence of rows.

In `CancelStack` a result that reaches a client is the one the server committed, or an unknown result whose message, if
any, is default-constructed (`Outcomes.Delivers`); an accepted command has exactly one bridge goal. In `Gateway` the
request bound relies on the operator: an id is resolved only while no thread works on it and no callback of it is
outstanding, and nothing is submitted under it until the resolve has returned (`Gateway.Heeds`). `GatewayRuns` shows that
neither half can be dropped. In `EndToEnd` a dispatched goal becomes one workflow at most, and the frames of two goals do
not interleave. The device may restart at any time, in `Restarts` and `EndToEnd` also between two frames of one goal; the
lemmas of `RetryOnce`, and `CanceledWorkflowStopsDevice` and `SucceededWorkflowExecutesOnce` in `CancelStack`, speak of a
goal without a restart.

Where the code and its own text disagree, the model follows the code:

- The keep floor does not retain recent rows, as the comment at
  `ros2_ws/src/runtime_gateway/include/runtime_gateway/durable_idempotency.hpp:66-67` says: it never protects a row that
  the first clause of the delete could remove (`Ledger.DeletionIsExact`).
- A bridge goal interrupted by shutdown reports 202 exactly if its STOP is confirmed, and 200 if the shutdown lasts
  (`BridgeWire.InterruptedExactlyWhen`, `BridgeWire.InterruptedReportsTransportError`).
- A failed retry send ends a bridge goal without a STOP (`BridgeWire.FailedRetryEndsWithoutStop`).
- The ledger's capacity is kept by a claim exactly if there is room when it is written
  (`Ledger.ClaimRespectsCapacityExactly`). A failed retention or count, and two concurrent admissions, break it
  (`Ledger.FailedCountExceedsCapacity`, `GatewayRuns.ConcurrentAdmissionsExceedCapacity`).
- A repeated history insert is compared without its correlation ids (`HistoryStats.CorrelationIdsAreNotCompared`).
- A child result with a code other than SUCCEEDED is passed on with its outcome even if that is COMPLETED, and the
  workflow is aborted (`OrchestratorWorkflow.UnknownChildIsReportedCompleted`); a COMPLETED workflow succeeded exactly if
  the child's own result was delivered (`CancelStack.CompletedWorkflowSucceededExactlyWhen`).
- The gateway records a delivered result without looking at its code, so an unknown result becomes COMPLETED
  (`CancelStack.UnknownResultIsRecordedCompleted`). A recorded COMPLETED guarantees success exactly if the delivery
  carries the code SUCCEEDED (`CancelStack.RecordedCompletedIsHonestExactlyWhen`).
- A confirmed STOP may be a replay. The bridge's STOP ids start over with its process while the device keeps its cache,
  so a goal can end CANCELED with its command executed last (`RetryOnce.CachedStopMayLeaveTheCommandRunning`). The STOP
  was executed exactly if its id was not cached when it arrived (`RetryOnce.CanceledMeansDeviceStopped`,
  `RetryOnce.CachedOnArrivalExactlyWhen`); a repeated goal may even end CANCELED with nothing done
  (`RetryOnce.RepeatedGoalMayDoNothing`).
- The replay cache does not survive a restart of the device, so a retried command may be executed twice and still end
  COMPLETED (`Restarts.CompletedGoalMayExecuteTwice`, `EndToEnd.RestartMayDoubleOneDispatch`). A goal is executed at most
  once exactly if no restart separates two copies of which the first was executed
  (`EndToEnd.GoalActsAtMostOnceExactlyWhen`).

## Model

| member | source | states |
|---|---|---|
| CancelStack.CanceledWorkflowIsHonest | ros2_ws/src/task_orchestrator/src/task_orchestrator_node.cpp:581-649 | in every run of the orchestrator's and the executor's terminal machines, a workflow that ends CANCELED had no child task dispatched, or its child put no frame on the bus, or a STOP for its command went out and the response under exactly the allocated STOP id had result 0 and mode STOPPED |
| CancelStack.CanceledWorkflowStopsDevice | ros2_ws/src/task_orchestrator/src/task_orchestrator_node.cpp:581-649 | down to the device, for every cache: a CANCELED workflow with frames on the bus, heard over the device's replies, leaves the device with the command executed at most once and then the STOP, exactly if the STOP id was not cached when it arrived |
| CancelStack.CanceledWorkflowAcrossRestarts | ros2_ws/src/task_orchestrator/src/task_orchestrator_node.cpp:581-649 | the same when the device may restart while the frames arrive: before the STOP only the command was executed, twice at most, and from the STOP on nothing but the STOP, exactly if its id is not cached there |
| CancelStack.CanceledTaskIsHonest | ros2_ws/src/task_executor/src/task_executor_node.cpp:667-676 | the same for one task: a committed CANCELED means no frame on the bus or a confirmed STOP |
| CancelStack.WorkflowResultIsRequested | ros2_ws/src/task_orchestrator/src/task_orchestrator_node.cpp:653-748 | in every run a workflow that is not aborted as a safe stop ends with exactly what its worker asked for |
| CancelStack.TaskResultIsReported | ros2_ws/src/task_executor/src/task_executor_node.cpp:859-880 | in every run a task ends with its worker's own result or the abort after an exception |
| CancelStack.WorkflowSucceedsExactlyWhen | ros2_ws/src/task_orchestrator/src/task_orchestrator_node.cpp:528-748 | as long as no goal-handle call threw early, a workflow with a verdict succeeded exactly if its tree ended in time and uncancelled, the child's own success was delivered, and the status was reserved before the deadline with no cancel accepted before |
| CancelStack.SmoothWorkflowSucceeds | ros2_ws/src/task_orchestrator/src/task_orchestrator_node.cpp:636-748 | an undisturbed workflow that fits together at every layer ends SUCCEEDED |
| CancelStack.SucceededWorkflowIsHonest | ros2_ws/src/task_orchestrator/src/task_orchestrator_node.cpp:636-648 | in every run a workflow that ends SUCCEEDED had no accepted cancel, was reserved before its deadline, its command was acknowledged with result 0 under its own id, and only one or two copies of the command reached the bus |
| CancelStack.SucceededWorkflowExecutesOnce | ros2_ws/src/task_orchestrator/src/task_orchestrator_node.cpp:636-648 | down to the device: a SUCCEEDED workflow whose bridge heard the device's replies made the device execute its command once and nothing else, exactly if the id was not cached |
| CancelStack.SucceededWorkflowAcrossRestarts | ros2_ws/src/task_orchestrator/src/task_orchestrator_node.cpp:636-648 | the same when the device may restart while the frames arrive: nothing but the command was executed, at least once if its id was not cached, and twice exactly if a restart separates two copies of which the first was executed |
| CancelStack.DeviceFaultWorkflowIsHonest | ros2_ws/src/task_orchestrator/src/task_orchestrator_node.cpp:636-648 | in every run a workflow that ends DEVICE_FAULT had its command refused by the bridge with nothing sent, or carries 300 plus the failure code of the device's own answer, and no STOP was sent |
| CancelStack.CompletedWorkflowSucceededExactlyWhen | ros2_ws/src/task_orchestrator/src/task_orchestrator_node.cpp:636-648 | a workflow that reports COMPLETED succeeded exactly if the orchestrator was told the child's own result |
| CancelStack.DeliveredIsRecorded | ros2_ws/src/runtime_gateway/src/gateway_service.cpp:425-436 | a delivered result is recorded with its own outcome and error code, one without a message as a safe stop with code 500 |
| CancelStack.RecordedCanceledIsHonest | ros2_ws/src/runtime_gateway/src/gateway_service.cpp:425-450 | a CANCELED that the gateway records is honest in the sense of CanceledWorkflowIsHonest |
| CancelStack.RecordedCompletedIsHonestExactlyWhen | ros2_ws/src/runtime_gateway/src/gateway_service.cpp:425-450 | a recorded COMPLETED guarantees success, whatever result is behind the delivery, exactly if the delivery carries the code SUCCEEDED |
| CancelStack.CodedCompletedSucceededExactlyWhen | ros2_ws/src/runtime_gateway/src/gateway_service.cpp:425-450 | a COMPLETED recorded from a delivery with a code is the workflow's own, and stands for success exactly if the orchestrator was told the child's own result |
| CancelStack.UnknownResultIsRecordedCompleted | ros2_ws/src/runtime_gateway/src/gateway_service.cpp:425-450 | an unknown result with a default message is recorded as COMPLETED whatever the workflow did |
| CancelHandshake.ActKeepsSafe | ros2_ws/src/task_executor/src/task_executor_node.cpp:882-916 | the shared cancel handshake: whatever requester, late response, failing dispatch and child end do next, a wanted and possible cancel stays in somebody's hands, delivered, or visibly failed, and is delivered at most once |
| ExecutorCancel.NoLostAndNoDoubleCancel | ros2_ws/src/task_executor/src/task_executor_node.cpp:438-464 | in every interleaving one thread dispatches at most, one dispatch succeeds at most, and once cancel_child_once was called and the bridge has accepted, in whichever order, the cancel of the live child is in dispatch, done, or failed in its last attempt |
| ExecutorCancel.FlagsFollowEvents | ros2_ws/src/task_executor/src/task_executor_node.cpp:438-472 | the shared flags tell exactly whether a cancel was asked for, whether the bridge answered and accepted, and whether the child has ended |
| ExecutorCancel.FailedCancelIsRetried | ros2_ws/src/task_executor/src/task_executor_node.cpp:882-916 | cancel_child_once dispatches again when no dispatch is under way and none succeeded |
| ExecutorCancel.ChildExecutionState.EnterCancel | ros2_ws/src/task_executor/src/task_executor_node.cpp:882-897 | the critical section of cancel_child_once: new flags and whether this thread dispatches |
| ExecutorCancel.ChildExecutionState.OnGoalResponse | ros2_ws/src/task_executor/src/task_executor_node.cpp:438-464 | the goal-response callback: new flags and whether it dispatches the late cancel |
| ExecutorCancel.ChildExecutionState.OnCancelThrew | ros2_ws/src/task_executor/src/task_executor_node.cpp:898-915 | a throwing dispatch reopens the cancel |
| ExecutorCancel.ChildExecutionState.OnResult | ros2_ws/src/task_executor/src/task_executor_node.cpp:465-472 | the result callback |
| OrchestratorCancel.NoLostAndNoDoubleCancel | ros2_ws/src/task_orchestrator/src/task_orchestrator_node.cpp:270-326 | the same handshake for a tree that was halted and a task that was accepted, in whichever order, where a recorded cancel timeout is the one further way out |
| OrchestratorCancel.FlagsFollowEvents | ros2_ws/src/task_orchestrator/src/task_orchestrator_node.cpp:220-292 | the flags tell exactly what happened, and a timeout is recorded only if a wait ran out |
| OrchestratorCancel.HaltReturnsHonestly | ros2_ws/src/task_orchestrator/src/task_orchestrator_node.cpp:270-326 | onHalted returns only once the child has ended or was refused, or with the timeout on record |
| OrchestratorCancel.HaltIsBounded | ros2_ws/src/task_orchestrator/src/task_orchestrator_node.cpp:270-326 | each of its waits ends when its time runs out, and records that exactly if the child has not ended |
| OrchestratorCancel.FailedCancelIsRetried | ros2_ws/src/task_orchestrator/src/task_orchestrator_node.cpp:294-319 | a pass of the loop dispatches again when no dispatch is under way and none succeeded |
| OrchestratorCancel.WorkflowState.OnGoalResponse | ros2_ws/src/task_orchestrator/src/task_orchestrator_node.cpp:220-238 | the goal-response callback takes over the cancel exactly if the tree was halted and nobody is dispatching |
| OrchestratorCancel.WorkflowState.BeginHalt | ros2_ws/src/task_orchestrator/src/task_orchestrator_node.cpp:270-292 | the entry of onHalted: wait for the response, return, or enter the cancel loop |
| OrchestratorCancel.WorkflowState.OnResult | ros2_ws/src/task_orchestrator/src/task_orchestrator_node.cpp:243-249 | the result callback |
| OrchestratorCancel.WorkflowState.LoopOnce | ros2_ws/src/task_orchestrator/src/task_orchestrator_node.cpp:294-319 | one pass of the halt loop: leave, wait, give up at the deadline, or dispatch |
| OrchestratorCancel.WorkflowState.EndDispatch | ros2_ws/src/task_orchestrator/src/task_orchestrator_node.cpp:165-193 | the end of dispatch_cancel: in-flight is cleared and success recorded |
| GatewayCancel.NoLostAndNoDoubleCancel | ros2_ws/src/runtime_gateway/src/gateway_service.cpp:187-214 | the same handshake for one pending goal that was accepted and whose cancel was asked for by a request, a timeout or a shutdown, in whichever order, or that was accepted too late; it is marked failed only if its last dispatch threw |
| GatewayCancel.FlagsFollowEvents | ros2_ws/src/runtime_gateway/src/gateway_service.cpp:373-394 | while the entry is pending its flags tell exactly what happened to it |
| GatewayCancel.CancelCommitsAgain | ros2_ws/src/runtime_gateway/src/gateway_service.cpp:535-545 | a cancel request always commits its thread once the handle is known |
| GatewayCancel.CommittedCancelIsDispatched | ros2_ws/src/runtime_gateway/src/gateway_service.cpp:187-198 | a committed thread takes the dispatch unless it is taken |
| GatewayCancel.PendingGoal.EnterDispatch | ros2_ws/src/runtime_gateway/src/gateway_service.cpp:187-198 | only the first thread that finds the goal pending and undispatched sends the cancel |
| GatewayCancel.PendingGoal.LeaveDispatch | ros2_ws/src/runtime_gateway/src/gateway_service.cpp:199-214 | a throwing send reopens the cancel and marks it failed if the goal is still pending |
| GatewayCancel.PendingGoal.OnAccepted | ros2_ws/src/runtime_gateway/src/gateway_service.cpp:373-394 | the goal-response callback cancels if a cancel or a shutdown came first |
| GatewayCancel.PendingGoal.RequestCancel | ros2_ws/src/runtime_gateway/src/gateway_service.cpp:535-545 | a cancel request marks the goal and commits this thread to dispatch if the handle is known |
| GatewayCancel.PendingGoal.CancelForShutdown | ros2_ws/src/runtime_gateway/src/gateway_service.cpp:679-695 | shutdown requests the cancel of every pending goal and commits to those with an undispatched handle |
| GatewayProof.AtMostOnce | ros2_ws/src/runtime_gateway/src/gateway_service.cpp:258-518 | over all runs with crashes, evictions, retention and concurrent submits in which ids are resolved with care: dispatches of a request id <= its claims <= its reclaimed rows + 1 |
| EndToEnd.DeviceActsAtMostOnce | ros2_ws/src/runtime_gateway/src/gateway_service.cpp:258-518 | over the whole stack and in every careful run: with goals that stem from dispatches, any workers, bridges, lossy in-order bus, replay cache and device restarts, the device acts for a request id at most once more often than its ledger row was reclaimed, if in no goal of it a restart separates two copies of the command of which the first was executed |
| EndToEnd.DeviceActionsAreBounded | ros2_ws/src/runtime_gateway/src/gateway_service.cpp:258-518 | without that condition, the device acts once more for every such goal, and at most twice as often in all |
| EndToEnd.RestartMayDoubleOneDispatch | ros2_ws/src/virtual_can_device/src/virtual_can_device_node.cpp:109-187 | at every capacity a run dispatches a request id once, reclaims no row, loses no frame, and a device that restarts between the two copies acts twice |
| EndToEnd.GoalActsAtMostOnceExactlyWhen | ros2_ws/src/virtual_can_device/src/virtual_can_device_node.cpp:109-187 | one goal makes the device act twice at most, whatever ids it has cached and whenever it restarts, and once at most exactly if no restart separates two copies of its command of which the first was executed |
| GatewayRuns.ResolvingUnderACallbackIsUnsafe | ros2_ws/src/runtime_gateway/src/gateway_service.cpp:144-184 | at every capacity of registry and ledger: a run in which no thread works on the id, but a callback of it is outstanding when it is resolved, ends with three claims and one reclaimed row |
| GatewayRuns.ResubmittingDuringAResolveIsUnsafe | ros2_ws/src/runtime_gateway/src/gateway_service.cpp:144-184 | at every capacity too: so does a run in which the id is submitted again before its resolve has returned |
| EndToEnd.WorkflowResultReachesTheClient | ros2_ws/src/runtime_gateway/src/gateway_service.cpp:425-458 | what a workflow ended with, delivered with a code and recorded, is what a retry is told even after a crash of the gateway: the state of its outcome and its error code, with nothing sent again |
| GatewayAnswers.RecordedResultSurvivesCrash | ros2_ws/src/runtime_gateway/src/gateway_service.cpp:425-458 | once a result was recorded the process may crash: a retry of the same request is answered with exactly its state, outcome and error code, without a claim or a dispatch |
| GatewayAnswers.ResultIsShownAndRecorded | ros2_ws/src/runtime_gateway/src/gateway_service.cpp:425-458 | a result is shown in the registry and recorded in the ledger with its outcome and error code, and the goal is gone |
| GatewayAnswers.StatesOfOutcomes | ros2_ws/src/runtime_gateway/src/gateway_service.cpp:94-103 | the states shown for the four outcomes and for any other |
| GatewayAnswers.ArrivalExactlyWhen | ros2_ws/src/runtime_gateway/src/gateway_service.cpp:30-37 | which requests are taken in |
| GatewayAnswers.KnownRequestIsReplayed | ros2_ws/src/runtime_gateway/src/gateway_service.cpp:323-341 | a request whose outcome the ledger knows is answered with it, one whose outcome is open with UNCERTAIN and the stored code or 409, and nothing is claimed, sent or recorded |
| GatewayAnswers.ConflictLeavesNothing | ros2_ws/src/runtime_gateway/src/gateway_service.cpp:309-322 | a conflict with a stored request, or a ledger that cannot be read, leaves no reservation |
| GatewayAnswers.AdmissionFollowsLedger | ros2_ws/src/runtime_gateway/src/gateway_service.cpp:305-322 | the steps of an admission without another thread in between are the ledger's admission, and go on to dispatch exactly on PROCEED |
| GatewayAnswers.UnsentIsRejected | ros2_ws/src/runtime_gateway/src/gateway_service.cpp:343-358 | a claimed request that is not sent is shown and recorded as rejected, with 400 for a workflow off the list and 503 without the orchestrator or during a shutdown |
| GatewayAnswers.ClaimedIsSent | ros2_ws/src/runtime_gateway/src/gateway_service.cpp:353-470 | any other claimed request becomes a pending goal and is sent once |
| GatewayAnswers.FailedSendIsRejected | ros2_ws/src/runtime_gateway/src/gateway_service.cpp:471-481 | a send that throws leaves no goal and is shown and recorded as rejected with 503 |
| GatewayAnswers.RefusedGoalIsRejected | ros2_ws/src/runtime_gateway/src/gateway_service.cpp:395-421 | a goal the orchestrator refuses is gone and shown and recorded as rejected with 400 |
| GatewayAnswers.AcceptedGoalIsShown | ros2_ws/src/runtime_gateway/src/gateway_service.cpp:375-394 | an accepted goal is shown as running, or as being cancelled if a cancel or shutdown came first |
| GatewayAnswers.LateResponseIsShown | ros2_ws/src/runtime_gateway/src/gateway_service.cpp:482-501 | a late goal response is shown as TIMED_OUT with 504 |
| GatewayAnswers.FailedCancelIsShown | ros2_ws/src/runtime_gateway/src/gateway_service.cpp:200-211 | a failed cancel dispatch is marked and shown as CANCEL_FAILED with 500 |
| GatewayAnswers.CancelIsShown | ros2_ws/src/runtime_gateway/src/gateway_service.cpp:535-546 | a cancel of a pending goal is shown as being under way |
| GatewayAnswers.DecisionFollowsLedger | ros2_ws/src/runtime_gateway/src/gateway_service.cpp:144-184 | an operator decision without another thread in between decides an open row exactly if it is a finished state, and is then shown |
| GatewayAnswers.OvertakenDecisionIsDropped | ros2_ws/src/runtime_gateway/src/durable_idempotency.cpp:121-139 | a decision is dropped if the database fails or the row was decided or replaced in the meantime |
| GatewayProof.DrainedExactlyWhen | ros2_ws/src/runtime_gateway/src/gateway_service.cpp:697-723 | cancel_active returns normally exactly if intake is stopped and no goal is pending |
| GatewayProof.RetentionIsCounted | ros2_ws/src/runtime_gateway/src/durable_idempotency.cpp:180-187 | a retention pass removes the finished rows older than 24 hours, each counted once |
| GatewayProof.IdentityIsImmutable | ros2_ws/src/runtime_gateway/src/durable_idempotency.cpp:61-119 | over all runs, crashes included, a ledger row keeps its fingerprint until retention removes it |
| GatewayProof.ClaimMatchesPayload | ros2_ws/src/runtime_gateway/src/durable_idempotency.cpp:99-105 | a claim is stored under the fingerprint of the claiming payload, which a payload has exactly if it agrees on all five fields |
| GatewayProof.SuccessfulCancelActiveMeansEmpty | ros2_ws/src/runtime_gateway/src/gateway_service.cpp:697-723 | cancel_active returns normally only with an empty goals map |
| GatewayProof.DrainedMeansEmpty | ros2_ws/src/runtime_gateway/src/gateway_service.cpp:679-724 | in every reachable state of a process in which cancel_active has returned normally, intake is stopped and no goal is pending |
| GatewayProof.DrainedStaysEmpty | ros2_ws/src/runtime_gateway/src/gateway_service.cpp:353-360 | after cancel_active returned normally, no goal is pending in any later state of the process |
| Requests.FingerprintIsInjective | ros2_ws/src/runtime_gateway/src/request_registry.cpp:20-35 | two requests have the same fingerprint exactly if all five semantic fields agree |
| Requests.FingerprintFormat | ros2_ws/src/runtime_gateway/src/request_registry.cpp:20-35 | the stored text of a fingerprint, on an example |
| Requests.FinishedStates | ros2_ws/src/runtime_gateway/src/durable_idempotency.cpp:36-43 | the six states that count as finished |
| RequestRegistry.InsertAnswers | ros2_ws/src/runtime_gateway/src/request_registry.cpp:45-77 | when each insert answer is given; CAPACITY exactly if full with no finished record |
| RequestRegistry.InsertEffect | ros2_ws/src/runtime_gateway/src/request_registry.cpp:45-77 | an insert adds one record at most, and removes nothing but the oldest finished one |
| RequestRegistry.EvictionEffect | ros2_ws/src/runtime_gateway/src/request_registry.cpp:62-73 | eviction removes the oldest finished record and no other |
| RequestRegistry.UpdateContract | ros2_ws/src/runtime_gateway/src/request_registry.cpp:99-113 | update_terminal sets the state, outcome, error code and message of one record and nothing else |
| RequestRegistry.EraseContract | ros2_ws/src/runtime_gateway/src/request_registry.cpp:115-125 | erase removes exactly the named record from map and order |
| RequestRegistry.EveryHistoryIsValid | ros2_ws/src/runtime_gateway/src/request_registry.cpp:45-132 | after every sequence of operations map and order hold the same distinct keys, within capacity, with distinct task ids |
| RequestRegistry.RequestRegistry.InsertRecord | ros2_ws/src/runtime_gateway/src/request_registry.cpp:45-77 | the in-place insert with its two searches computes the specified registry and answer |
| RequestRegistry.RequestRegistry.FindTask | ros2_ws/src/runtime_gateway/src/request_registry.cpp:56-61 | the search for a used task id |
| RequestRegistry.RequestRegistry.FindOldestTerminal | ros2_ws/src/runtime_gateway/src/request_registry.cpp:62-69 | the search for the oldest finished record |
| RequestRegistry.RequestRegistry.UpdateTerminal | ros2_ws/src/runtime_gateway/src/request_registry.cpp:99-113 | the in-place update computes the specified registry and answer |
| RequestRegistry.RequestRegistry.EraseRecord | ros2_ws/src/runtime_gateway/src/request_registry.cpp:115-125 | the in-place erase computes the specified registry and answer |
| Ledger.DeletionIsExact | ros2_ws/src/runtime_history/src/store.cpp:325-364 | for every keep floor the delete statement removes exactly the expired rows in a reclaimable state |
| Ledger.PruneKeepsUnexpired | ros2_ws/src/runtime_gateway/src/durable_idempotency.cpp:180-187 | no unexpired row is removed by any prune |
| Ledger.AdmitAnswers | ros2_ws/src/runtime_gateway/src/durable_idempotency.cpp:61-106 | when each admission answer is given, for every combination of failing reads, prunes, counts and writes |
| Ledger.AdmitSays | ros2_ws/src/runtime_gateway/src/durable_idempotency.cpp:61-106 | what each answer carries: the stored outcome, 409 for a conflict, 429 for a full ledger, 503 for a failing database |
| Ledger.AdmitEffect | ros2_ws/src/runtime_gateway/src/durable_idempotency.cpp:61-106 | an admission keeps every row's identity, removes only reclaimable rows, and adds one unresolved row exactly on PROCEED |
| Ledger.ProceedStoresClaim | ros2_ws/src/runtime_gateway/src/durable_idempotency.cpp:99-105 | a claim stores the request's fingerprint as ADMITTED at the time of the claim |
| Ledger.ProceedRespectsCapacityExactly | ros2_ws/src/runtime_gateway/src/durable_idempotency.cpp:87-105 | an admission that proceeds with no writer in between adds one unexpired row and stays within `capacity` exactly if there was room, which working retention and a working count guarantee |
| Ledger.ClaimRespectsCapacityExactly | ros2_ws/src/runtime_gateway/src/durable_idempotency.cpp:99-105 | the claim itself, whenever it is written, stays within `capacity` exactly if there is room at that moment |
| Ledger.FailedCountExceedsCapacity | ros2_ws/src/runtime_gateway/src/durable_idempotency.cpp:87-105 | when retention or the count throws, a full ledger of any capacity admits one row more than it may hold |
| GatewayRuns.ConcurrentAdmissionsExceedCapacity | ros2_ws/src/runtime_gateway/src/durable_idempotency.cpp:87-105 | at every ledger capacity, two admissions that each count before the other writes exceed it although every count works |
| Ledger.RetentionKeepsADay | ros2_ws/src/runtime_gateway/src/durable_idempotency.cpp:180-187 | retention keeps exactly the rows that are open or at most 24 hours old |
| Ledger.UnexpiredMeans | ros2_ws/src/runtime_gateway/src/durable_idempotency.cpp:87-98 | the rows that count against the capacity are those of the last 24 hours |
| Ledger.RecentOutcomeIsReplayed | ros2_ws/src/runtime_gateway/src/durable_idempotency.cpp:64-86 | a finished outcome is replayed for 24 hours with all it was stored with, whatever retention does |
| Ledger.CompletionIsReplayed | ros2_ws/src/runtime_gateway/src/durable_idempotency.cpp:108-119 | a completion is stored exactly if no other request is stored under the id, and every retry then replays just what it was completed with |
| Ledger.ResolutionByRecordIsReplayed | ros2_ws/src/runtime_gateway/src/durable_idempotency.cpp:141-163 | the record overload of an operator decision is replayed with its error code |
| Ledger.PutAnswers | ros2_ws/src/runtime_history/src/store.cpp:259-296 | the upsert writes a row exactly if the database works, its keys are there and no row of another fingerprint is in the way |
| Ledger.ClaimIsRemembered | ros2_ws/src/runtime_gateway/src/durable_idempotency.cpp:64-86 | a claimed request comes back as unresolved, a changed payload as a conflict, whatever retention did |
| Ledger.ResolutionIsReplayed | ros2_ws/src/runtime_gateway/src/durable_idempotency.cpp:121-163 | an operator decision is taken once, only on an unresolved row, and is then replayed unchanged |
| Ledger.ResolutionsAgree | ros2_ws/src/runtime_gateway/src/durable_idempotency.cpp:121-163 | both overloads of resolve_uncertain decide alike |
| Ledger.Store.PutIdempotency | ros2_ws/src/runtime_history/src/store.cpp:259-296 | the conditional upsert: written only if new or of the same fingerprint |
| Ledger.Store.PruneIdempotency | ros2_ws/src/runtime_history/src/store.cpp:325-364 | the row-by-row delete computes the specified table and counts what it removed |
| Ledger.DurableIdempotency.AdmitRequest | ros2_ws/src/runtime_gateway/src/durable_idempotency.cpp:61-106 | the imperative admission over the store computes the specified table and answer |
| Ledger.DurableIdempotency.ResolveUncertain | ros2_ws/src/runtime_gateway/src/durable_idempotency.cpp:121-139 | the imperative resolution over the store computes the specified table and answer |
| ExecutorTerminal.GoalHandleIsCalledWithoutVerdict | ros2_ws/src/task_executor/src/task_executor_node.cpp:859-880 | no goal-handle call is made on a goal that already has its terminal status |
| ExecutorTerminal.OneTransitionOneEvent | ros2_ws/src/task_executor/src/task_executor_node.cpp:859-880 | whatever throws and however threads interleave, and although the modelled server refuses nothing: per goal one terminal transition and one TaskEvent at most, an event only with the committed result |
| ExecutorTerminal.VerdictIsReported | ros2_ws/src/task_executor/src/task_executor_node.cpp:859-880 | a goal's status is what its worker claimed or the abort after an exception |
| ExecutorTerminal.GoalEnds | ros2_ws/src/task_executor/src/task_executor_node.cpp:859-880 | every goal whose worker is done has its status, the worker's own result unless something threw; it has none only if its transition threw early after an earlier failure, and its event is published unless publishing failed |
| ExecutorTerminal.WorkerAdvances | ros2_ws/src/task_executor/src/task_executor_node.cpp:319-357 | a worker is gone after at most seven steps, whatever becomes of its calls |
| ExecutorTerminal.OpenGateAdmits | ros2_ws/src/task_executor/src/task_executor_node.cpp:269-273 | an open gate admits the next goal and closes |
| ExecutorTerminal.OneWorkerAtATime | ros2_ws/src/task_executor/src/task_executor_node.cpp:291-317 | two running workers are the same worker |
| ExecutorTerminal.GateReopensExactlyAfterTransition | ros2_ws/src/task_executor/src/task_executor_node.cpp:319-346 | with no callback or worker active, the busy gate is open exactly if every accepted goal got its transition |
| ExecutorTerminal.OpenGoalHoldsTheGate | ros2_ws/src/task_executor/src/task_executor_node.cpp:269-273 | in every state, a goal without its transition keeps the busy gate closed and is the last accepted one |
| ExecutorTerminal.UncommittedGoalBlocksForever | ros2_ws/src/task_executor/src/task_executor_node.cpp:333-346 | if a worker leaves without a committed transition, nothing is ever accepted again |
| ExecutorTerminal.TaskExecutor.CommitParentTerminal | ros2_ws/src/task_executor/src/task_executor_node.cpp:859-880 | lost exchange, won, or reopened and rethrown, by fate of hook and transition |
| ExecutorTerminal.TaskExecutor.AcceptGoal | ros2_ws/src/task_executor/src/task_executor_node.cpp:269-273 | the busy gate admits one goal |
| ExecutorTerminal.TaskExecutor.BeginGoal | ros2_ws/src/task_executor/src/task_executor_node.cpp:291-297 | the per-goal flags are reset |
| ExecutorTerminal.TaskExecutor.Finish | ros2_ws/src/task_executor/src/task_executor_node.cpp:824-857 | an event is published only after a won commit, and only a throwing commit propagates |
| ExecutorTerminal.TaskExecutor.PublishTerminalEventOnce | ros2_ws/src/task_executor/src/task_executor_node.cpp:981-1002 | only the first call for a goal can publish |
| ExecutorTerminal.TaskExecutor.Execute | ros2_ws/src/task_executor/src/task_executor_node.cpp:319-357 | one worker's transitions, events and gate for every combination of throwing hooks |
| ExecutorWorker.CanceledExactlyWhen | ros2_ws/src/task_executor/src/task_executor_node.cpp:359-733 | a task is reported CANCELED exactly if the cancel was seen in validation, or the bridge refused the command of a cancelled task, or the bridge's own result was a cancel confirmed in time |
| ExecutorWorker.CompletedExactlyWhen | ros2_ws/src/task_executor/src/task_executor_node.cpp:359-733 | a task is reported COMPLETED exactly if the device command completed and nothing ever asked it to stop, ran out or threw |
| ExecutorWorker.DeviceFaultExactlyWhen | ros2_ws/src/task_executor/src/task_executor_node.cpp:536-733 | a task is reported DEVICE_FAULT exactly if nothing stopped it or threw and the bridge refused the command (110) or reported a device fault, whose code it passes on |
| ExecutorWorker.ValidationCancels | ros2_ws/src/task_executor/src/task_executor_node.cpp:370-393 | the validation loop ends in a clean cancel exactly at the first look that shows it |
| ExecutorWorker.ValidationStopsAt | ros2_ws/src/task_executor/src/task_executor_node.cpp:370-393 | the first look that shows a stop decides: 111 for a shutdown, a clean cancel, 112 for the deadline, or its exception |
| ExecutorWorker.ResponseWaitStopsAt | ros2_ws/src/task_executor/src/task_executor_node.cpp:481-518 | the response wait stops for the first reason that shows |
| ExecutorWorker.ResultWaitStopsAt | ros2_ws/src/task_executor/src/task_executor_node.cpp:573-614 | the result wait stops for the first reason that shows, unless its hook throws |
| ExecutorWorker.StoppedWaitGoesOn | ros2_ws/src/task_executor/src/task_executor_node.cpp:573-614 | a stopped wait goes on until the child ends or the drain time is over; only a shutdown changes its reason |
| ExecutorWorker.UnsentTaskReports | ros2_ws/src/task_executor/src/task_executor_node.cpp:359-414 | the result of a task that ends before its command is sent |
| ExecutorWorker.SentTaskReports | ros2_ws/src/task_executor/src/task_executor_node.cpp:481-660 | the result of a task whose command was sent, for every reason to stop: 113 when the drain time is over, 114 on an exception or a missing result, and otherwise by the handle and the child's result |
| ExecutorWorker.UnacceptedTaskReports | ros2_ws/src/task_executor/src/task_executor_node.cpp:519-560 | the result of a task without a handle: 110, 111, 112, 113 or a clean cancel |
| ExecutorWorker.ChildResultReports | ros2_ws/src/task_executor/src/task_executor_node.cpp:647-733 | the result that the child's result makes of a task, for every reason to stop |
| ExecutorWorker.Worker.RunValidation | ros2_ws/src/task_executor/src/task_executor_node.cpp:370-393 | the validation loop computes its specification |
| ExecutorWorker.Worker.WaitForResponse | ros2_ws/src/task_executor/src/task_executor_node.cpp:481-518 | the response wait finds the first stop cause, overridden by shutdown |
| ExecutorWorker.Worker.WaitForChild | ros2_ws/src/task_executor/src/task_executor_node.cpp:573-614 | the result wait keeps the first stop cause, overridden by shutdown, and drains only after a stop |
| ExecutorWorker.Worker.ExecuteWorker | ros2_ws/src/task_executor/src/task_executor_node.cpp:359-645 | the whole worker: its exit, and the goal sent to the bridge with a fresh id and an ACK timeout of at most a third of the remaining budget |
| OrchestratorTerminal.GoalHandleIsCalledWithoutVerdict | ros2_ws/src/task_orchestrator/src/task_orchestrator_node.cpp:694-747 | no goal-handle call, the fallback included, is made on a workflow that already has a verdict |
| OrchestratorTerminal.CancelAndTerminalAreLinearised | ros2_ws/src/task_orchestrator/src/task_orchestrator_node.cpp:454-748 | in every run, although the modelled server refuses nothing: a cancel is accepted only before the reservation, one reservation, one verdict, success reserved neither after an accepted cancel nor at the deadline |
| OrchestratorTerminal.ReservationFollowsRequest | ros2_ws/src/task_orchestrator/src/task_orchestrator_node.cpp:674-693 | in every run what is reserved is the worker's request, except that a success gives way to a cancel accepted before (208) and otherwise to the deadline (209) |
| OrchestratorTerminal.ReservedNow | ros2_ws/src/task_orchestrator/src/task_orchestrator_node.cpp:674-693 | a reservation carries the time at which it is made |
| OrchestratorTerminal.WorkflowEndsWithVerdict | ros2_ws/src/task_orchestrator/src/task_orchestrator_node.cpp:694-748 | a workflow whose thread has left terminal() has a verdict, the reserved one unless the goal-handle call threw early; without one both calls threw early and the failure is on record |
| OrchestratorTerminal.CallerAdvances | ros2_ws/src/task_orchestrator/src/task_orchestrator_node.cpp:653-748 | a thread inside terminal() leaves after at most six steps |
| OrchestratorTerminal.FirstCallerWins | ros2_ws/src/task_orchestrator/src/task_orchestrator_node.cpp:653-673 | there is a winner as soon as terminal() was called |
| OrchestratorTerminal.VerdictIsCommitment | ros2_ws/src/task_orchestrator/src/task_orchestrator_node.cpp:653-748 | in every run the verdict is the fallback abort or what the worker's request commits to at some time, given the cancels answered by then |
| OrchestratorTerminal.AcceptedCancelNeverSucceeds | ros2_ws/src/task_orchestrator/src/task_orchestrator_node.cpp:653-748 | a workflow that ends SUCCEEDED had no ACCEPT answer in its whole run and a reservation before the deadline |
| OrchestratorTerminal.VerdictIsReserved | ros2_ws/src/task_orchestrator/src/task_orchestrator_node.cpp:694-747 | the verdict is the reserved result or the fallback abort |
| OrchestratorTerminal.WorkflowTerminal.HandleCancel | ros2_ws/src/task_orchestrator/src/task_orchestrator_node.cpp:454-462 | accepted exactly if nothing is reserved |
| OrchestratorTerminal.WorkflowTerminal.TryReserve | ros2_ws/src/task_orchestrator/src/task_orchestrator_node.cpp:674-693 | the critical section of terminal(): success gives way to an accepted cancel and to the deadline |
| OrchestratorTerminal.WorkflowTerminal.Transit | ros2_ws/src/task_orchestrator/src/task_orchestrator_node.cpp:694-722 | a goal-handle call, made only without a verdict |
| OrchestratorTerminal.WorkflowTerminal.Terminal | ros2_ws/src/task_orchestrator/src/task_orchestrator_node.cpp:653-748 | only the first call acts; reservation, a look whether the goal is active, transition and one fallback abort for every fate of both |
| OrchestratorWorkflow.ChildBudget | ros2_ws/src/task_orchestrator/src/task_orchestrator_node.cpp:198-211 | the child budget is exactly the remaining time, split into a well-formed duration |
| OrchestratorWorkflow.RequestIsHonest | ros2_ws/src/task_orchestrator/src/task_orchestrator_node.cpp:518-649 | the terminal request is CANCELED only without a dispatched child or on a cancelled child in time, and SUCCEEDED only on a succeeded and completed child |
| OrchestratorWorkflow.RequestSucceedsExactlyWhen | ros2_ws/src/task_orchestrator/src/task_orchestrator_node.cpp:528-566 | the worker asks for success exactly if the tree ended in time and uncancelled and the child's own success was delivered |
| OrchestratorWorkflow.RequestCancelsExactlyWhen | ros2_ws/src/task_orchestrator/src/task_orchestrator_node.cpp:528-566 | it asks for a cancelled end exactly if it saw the cancel, the child's cancel did not time out, and the child was cancelled or never dispatched |
| OrchestratorWorkflow.RequestStopsWith | ros2_ws/src/task_orchestrator/src/task_orchestrator_node.cpp:528-566 | otherwise the code names the reason: 205 for a stopped node, 209 for the deadline, 208 for a throwing tick |
| OrchestratorWorkflow.FinishExactly | ros2_ws/src/task_orchestrator/src/task_orchestrator_node.cpp:581-649 | what finish() asks for and with which code, for every combination of what it reads |
| OrchestratorWorkflow.UnknownChildIsReportedCompleted | ros2_ws/src/task_orchestrator/src/task_orchestrator_node.cpp:636-648 | an unknown child result with a default message makes an aborted workflow report COMPLETED |
| OrchestratorWorkflow.Execute | ros2_ws/src/task_orchestrator/src/task_orchestrator_node.cpp:518-566 | the execute loop makes the specified terminal request |
| OrchestratorWorkflow.RunWorker | ros2_ws/src/task_orchestrator/src/task_orchestrator_node.cpp:492-516 | a worker run commits the specified verdict |
| DeviceBridge.ReceiveReturnsFirstMatch | ros2_ws/src/device_bridge/src/device_bridge_node.cpp:181-232 | a response is returned exactly if it is the first well-formed frame with the awaited id, reached while running, uncancelled and without socket errors |
| DeviceBridge.ReceiveEndsExactly | ros2_ws/src/device_bridge/src/device_bridge_node.cpp:181-232 | exactly when a wait ends unanswered, by a socket error, by the node's shutdown or by a cancel |
| DeviceBridge.OutdatedFramesNeverAnswer | ros2_ws/src/device_bridge/src/device_bridge_node.cpp:181-232 | a window whose frames all answer ids issued earlier in the cycle, or of the other counter, never yields a response |
| DeviceBridge.Bridge.HandleGoal | ros2_ws/src/device_bridge/src/device_bridge_node.cpp:113-150 | a goal is accepted exactly if its id and timeout are in range, the socket is open and no goal is active |
| DeviceBridge.Bridge.ReceiveResponse | ros2_ws/src/device_bridge/src/device_bridge_node.cpp:181-232 | the receive loop computes its specification |
| DeviceBridge.Bridge.StopAndFinish | ros2_ws/src/device_bridge/src/device_bridge_node.cpp:389-455 | one STOP attempt with the allocated id, and the result its response proves |
| DeviceBridge.Bridge.AllocateStopCommandId | ros2_ws/src/device_bridge/src/device_bridge_node.cpp:457-466 | the STOP counter is used, then advanced, wrapping from 0xFFFF to 0x8000 |
| DeviceBridge.Bridge.RunAttempts | ros2_ws/src/device_bridge/src/device_bridge_node.cpp:277-376 | the retry loop: result, frames and STOP id of a goal |
| DeviceBridge.Bridge.Execute | ros2_ws/src/device_bridge/src/device_bridge_node.cpp:253-387 | one accepted goal: its result and frames; the gate reopens on every path |
| BridgeWire.WireGrammar | ros2_ws/src/device_bridge/src/device_bridge_node.cpp:277-376 | a goal sends at most two identical copies of the command, then one failed command send or at most one STOP with the original id, and nothing after |
| BridgeWire.StopExactlyWhenUnsettled | ros2_ws/src/device_bridge/src/device_bridge_node.cpp:277-376 | a STOP is attempted exactly if a copy went out and the goal then ended by cancel, second timeout, receive error or shutdown |
| BridgeWire.CopiesSent | ros2_ws/src/device_bridge/src/device_bridge_node.cpp:277-376 | a second copy goes out exactly if the first was not answered in time and the goal is still wanted |
| BridgeWire.SettledGoalReports | ros2_ws/src/device_bridge/src/device_bridge_node.cpp:281-340 | the result of a goal that needs no STOP: a clean cancel, 200 for a failed send, success, or 300 plus the device's code |
| BridgeWire.ConfirmedStopReports | ros2_ws/src/device_bridge/src/device_bridge_node.cpp:342-386 | the result of a goal whose STOP was confirmed: a cancel, 201 for two unanswered copies, 200 for a receive error, 202 for a shutdown |
| BridgeWire.UnconfirmedStopReports | ros2_ws/src/device_bridge/src/device_bridge_node.cpp:389-455 | the result of a goal whose STOP was not confirmed: 200 if it was not sent or its wait failed, 204 without an answer, 205 for any other answer |
| BridgeWire.FailedRetryEndsWithoutStop | ros2_ws/src/device_bridge/src/device_bridge_node.cpp:302-308 | a goal whose retry cannot be sent ends with 200 and no STOP although one copy is on the bus |
| BridgeWire.CanceledIsHonest | ros2_ws/src/device_bridge/src/device_bridge_node.cpp:281-289 | a bridge goal is CANCELED exactly if nothing was sent before the cancel or the STOP was confirmed |
| BridgeWire.CompletedIsHonest | ros2_ws/src/device_bridge/src/device_bridge_node.cpp:309-340 | a bridge goal is COMPLETED exactly on an acknowledgement with result 0 and no cancel; then no STOP was sent |
| BridgeWire.DeviceFaultIsHonest | ros2_ws/src/device_bridge/src/device_bridge_node.cpp:309-340 | a bridge goal is DEVICE_FAULT exactly on the device's own failure answer, whose code it carries; then no STOP was sent |
| BridgeWire.InterruptedExactlyWhen | ros2_ws/src/device_bridge/src/device_bridge_node.cpp:389-455 | a goal interrupted by shutdown reports the shutdown code exactly if its STOP is confirmed |
| BridgeWire.InterruptedReportsTransportError | ros2_ws/src/device_bridge/src/device_bridge_node.cpp:442-448 | a goal interrupted by a lasting shutdown reports 200 |
| RetryOnce.RetryAppliesOnce | ros2_ws/src/virtual_can_device/src/virtual_can_device_node.cpp:109-187 | over every lossy in-order bus and for every cache of a device that does not restart meanwhile, one goal is executed once if any copy arrives and its id is not cached, and otherwise never, followed by one STOP at most |
| RetryOnce.CanceledMeansDeviceStopped | ros2_ws/src/virtual_can_device/src/virtual_can_device_node.cpp:109-187 | for every cache: a goal cancelled after a send and heard over the device's replies leaves the device with the command executed at most once, exactly if a copy arrived and its id was not cached, and then the STOP, exactly if its id was not cached when it arrived |
| RetryOnce.CachedOnArrivalExactlyWhen | ros2_ws/src/virtual_can_device/src/virtual_can_device_node.cpp:177-187 | when that is: the STOP id is cached on arrival exactly if it is the command's own, or was cached before and not evicted by a new command |
| RetryOnce.FreshStopIsExecuted | ros2_ws/src/virtual_can_device/src/virtual_can_device_node.cpp:109-187 | with two different fresh ids the STOP is the last thing executed |
| RetryOnce.CompletedMeansExecuted | ros2_ws/src/virtual_can_device/src/virtual_can_device_node.cpp:109-187 | for every cache: a COMPLETED goal heard over the device's replies made the device execute its command once and nothing else, exactly if its id was not cached; otherwise this very command was cached with result 0 |
| RetryOnce.CachedStopMayLeaveTheCommandRunning | ros2_ws/src/device_bridge/src/device_bridge_node.cpp:457-466 | at every cache capacity from 2 on, from an empty device: after an earlier cancelled goal of which only the STOP arrived, the same goal under the same ids ends CANCELED on a bus without losses and the device has executed the command last |
| RetryOnce.RepeatedGoalMayDoNothing | ros2_ws/src/device_bridge/src/device_bridge_node.cpp:457-466 | likewise, after a cancelled goal without losses the same goal ends CANCELED and the device does nothing at all |
| RetryOnce.CachedStopReplaysWithoutActing | ros2_ws/src/virtual_can_device/src/virtual_can_device_node.cpp:109-124 | a STOP whose id is cached for that same STOP is answered STOPPED again and executes nothing |
| Restarts.RetryAcrossRestarts | ros2_ws/src/virtual_can_device/src/virtual_can_device_node.cpp:109-187 | for every cache, lossy in-order bus and restarts of the device: a goal's command is executed once for every life of the device a copy reaches, unless the first has its id cached, twice exactly if a restart separates two copies of which the first was executed, and the STOP at most once after it |
| Restarts.CompletedAcrossRestarts | ros2_ws/src/virtual_can_device/src/virtual_can_device_node.cpp:109-187 | a COMPLETED goal heard over the device's replies made the device execute nothing but its command, at least once if its id was not cached, and twice exactly under that condition |
| Restarts.CanceledAcrossRestarts | ros2_ws/src/virtual_can_device/src/virtual_can_device_node.cpp:109-187 | a goal cancelled after a send and heard over the device's replies leaves the device with the command executed at most twice and then the STOP, exactly if its id was not cached when it arrived |
| Restarts.CompletedGoalMayExecuteTwice | ros2_ws/src/device_bridge/src/device_bridge_node.cpp:309-340 | a goal ends COMPLETED on a bus without losses after a device that restarted between the copies executed both |
| Restarts.TurnsMoreThanOnce | ros2_ws/src/virtual_can_device/src/virtual_can_device_node.cpp:109-187 | the count of executions exceeds one exactly if a restart separates two copies of which the first was executed |
| VirtualDevice.FreshAnswers | ros2_ws/src/virtual_can_device/src/virtual_can_device_node.cpp:126-175 | the answer to a new command in each behaviour: confirmed STOP, success, 1, 2 with mode FAULT, or silence |
| VirtualDevice.ConflictIsRefused | ros2_ws/src/virtual_can_device/src/virtual_can_device_node.cpp:111-119 | a different command under a cached id gets result 3 and mode FAULT, and nothing happens |
| VirtualDevice.RepeatIsInert | ros2_ws/src/virtual_can_device/src/virtual_can_device_node.cpp:109-124 | a repeat gets the stored answer, a different command on a cached id the conflict answer, and neither changes the device |
| VirtualDevice.StoppedMeansStopApplied | ros2_ws/src/virtual_can_device/src/virtual_can_device_node.cpp:126-146 | a response reporting STOPPED answers a STOP that the device executed |
| VirtualDevice.NoIdAppliedTwiceInWindow | ros2_ws/src/virtual_can_device/src/virtual_can_device_node.cpp:177-187 | among any `capacity` consecutive executions no id occurs twice, whatever was delivered |
| VirtualDevice.CanDevice.ProcessCommand | ros2_ws/src/virtual_can_device/src/virtual_can_device_node.cpp:109-175 | the in-place device step computes the specified state and response |
| VirtualDevice.CanDevice.CacheCommand | ros2_ws/src/virtual_can_device/src/virtual_can_device_node.cpp:177-187 | the in-place cache insert with FIFO eviction |
| CanProtocol.CommandRoundTrip | ros2_ws/src/runtime_can/src/protocol.cpp:25-84 | every command decodes from its own encoding |
| CanProtocol.ResponseRoundTrip | ros2_ws/src/runtime_can/src/protocol.cpp:44-105 | every response decodes from its own encoding |
| CanProtocol.WireLayout | ros2_ws/src/runtime_can/src/protocol.cpp:25-58 | the frame ids, the version and every byte of both frames, big-endian, with opcode 0xFF for STOP |
| CanProtocol.MalformedExactlyWhen | ros2_ws/src/runtime_can/src/protocol.cpp:60-105 | a frame is ignored exactly if its id, length or version is another |
| CanProtocol.CommandFrameIsCanonical | ros2_ws/src/runtime_can/src/protocol.cpp:60-84 | a frame decodes to a command exactly if it is that command's encoding |
| CanProtocol.ResponseFrameIsCanonical | ros2_ws/src/runtime_can/src/protocol.cpp:86-105 | a frame decodes to a response exactly if it is that response's encoding |
| CommandIds.CommandIdAllocator.Allocate | ros2_ws/src/task_executor/src/task_executor_node.cpp:1004-1010 | the executor's counter issues the cyclic sequence over [1, 0x7FFF] |
| CommandIds.NextStopIdAdvances | ros2_ws/src/device_bridge/src/device_bridge_node.cpp:457-466 | the bridge's counter issues the cyclic sequence over [0x8000, 0xFFFF] |
| CommandIds.WrapOnce | ros2_ws/src/task_executor/src/task_executor_node.cpp:1004-1010 | the executor's counter wraps from 0x7FFF to 1 |
| CommandIds.SameIdExactlyAfterWholeCycles | ros2_ws/src/task_executor/src/task_executor_node.cpp:1004-1010 | two allocations give the same id exactly if they are whole cycles apart |
| CommandIds.IssuedIdsDistinct | ros2_ws/src/device_bridge/src/device_bridge_node.cpp:457-466 | ids stay in their range, and a cycle of consecutive ids is distinct |
| CommandIds.StaleResponseIsUnmatched | ros2_ws/src/device_bridge/src/device_bridge_node.cpp:181-232 | a late answer to an earlier executor command matches no other command of its cycle and no STOP |
| CommandIds.StaleStopResponseIsUnmatched | ros2_ws/src/device_bridge/src/device_bridge_node.cpp:181-232 | a late answer to an earlier STOP matches no other STOP of its cycle and no command |
| TimeBudget.ToMillisecondsIsCeiling | ros2_ws/src/device_bridge/src/command_policy.cpp:8-33 | a duration is accepted exactly if its ceiling in ms lies in [1, max], without int64 overflow |
| TimeBudget.ToMillisecondsRejection | ros2_ws/src/device_bridge/src/command_policy.cpp:8-33 | exactly which durations are rejected |
| TimeBudget.SplitThenToMilliseconds | ros2_ws/src/task_executor/src/task_executor_node.cpp:408-414 | the bridge recovers exactly the milliseconds the executor split |
| TimeBudget.AckWindowsLeaveAThird | ros2_ws/src/task_executor/src/task_executor_node.cpp:395-414 | both ACK windows use at most two thirds of the remaining budget, and no longer timeout would |
| TimeBudget.GatewayTimeoutFits | ros2_ws/src/runtime_gateway/src/gateway_service.cpp:30-37 | an accepted gateway timeout splits into an in-range sec/nanosec pair, and exactly those do |
| Recorder.Conservation | ros2_ws/src/runtime_history/src/recorder.cpp:18-83 | accepted = persisted + failed + queued + in flight in every interleaving; writes in acceptance order; bounded queue |
| Recorder.AcceptedExactlyWhen | ros2_ws/src/runtime_history/src/recorder.cpp:18-27 | in every state a record is let in exactly if the recorder is not stopping and has room |
| Recorder.WriteIsCounted | ros2_ws/src/runtime_history/src/recorder.cpp:62-83 | the worker takes the oldest record and counts how its write ended |
| Recorder.StopClosesIntake | ros2_ws/src/runtime_history/src/recorder.cpp:29-36 | stop() closes the intake at once |
| Recorder.StopDrains | ros2_ws/src/runtime_history/src/recorder.cpp:29-48 | the worker is joined once at most; when stop() returned to another thread every accepted record is counted, for good |
| Recorder.StopReturnsAfterJoin | ros2_ws/src/runtime_history/src/recorder.cpp:29-48 | a thread returns from stop() when the worker was joined, by itself or by another |
| Recorder.StopNeverDeadlocks | ros2_ws/src/runtime_history/src/recorder.cpp:29-48 | while a thread is inside stop(), the worker or a stopping thread can move |
| Recorder.Queue.Enqueue | ros2_ws/src/runtime_history/src/recorder.cpp:18-27 | a record is taken exactly if not stopping and below capacity |
| Recorder.Queue.ClaimJoin | ros2_ws/src/runtime_history/src/recorder.cpp:37-41 | only the first stopping thread joins the worker |
| Recorder.Queue.Drain | ros2_ws/src/runtime_history/src/recorder.cpp:62-83 | the worker loop under stop writes the whole queue in order and counts every write |
| MarkerTrigger.FiresExactlyAfterConfirmation | ros2_ws/src/perception_task_adapter/src/marker_trigger.cpp:57-114 | observe fires exactly if armed and the last `confirm_frames` calls all showed that one marker with no active workflow, or this one did and was immediate |
| MarkerTrigger.FramesMean | ros2_ws/src/perception_task_adapter/src/marker_trigger.cpp:67-97 | one mapped marker in view, none or several, in terms of the configuration |
| MarkerTrigger.ArmedExactlyWhenRearmed | ros2_ws/src/perception_task_adapter/src/marker_trigger.cpp:77-122 | the trigger is armed exactly if every firing and on_terminal was followed by enough empty frames in one quiet stretch |
| MarkerTrigger.FiringsAreSeparated | ros2_ws/src/perception_task_adapter/src/marker_trigger.cpp:57-122 | between two firings lie `rearm_missing_frames` empty frames with only ambiguous ones among them |
| MarkerTrigger.CountersAreRuns | ros2_ws/src/perception_task_adapter/src/marker_trigger.cpp:57-122 | the counters equal the runs at the end of the call history |
| MarkerTrigger.TrailingRunMeans | ros2_ws/src/perception_task_adapter/src/marker_trigger.cpp:99-104 | a run of k means that the last k calls all showed the marker |
| MarkerTrigger.QuietRunMeans | ros2_ws/src/perception_task_adapter/src/marker_trigger.cpp:77-97 | the missing count is the number of empty frames in the longest quiet end of the history |
| MarkerTrigger.Trigger.VisibleMappings | ros2_ws/src/perception_task_adapter/src/marker_trigger.cpp:67-75 | the search loop finds the visible mappings in configuration order |
| MarkerTrigger.Trigger.Observe | ros2_ws/src/perception_task_adapter/src/marker_trigger.cpp:57-114 | the in-place observe, with its search loop, computes the specified state and event |
| MarkerTrigger.Trigger.OnTerminal | ros2_ws/src/perception_task_adapter/src/marker_trigger.cpp:116-122 | the in-place on_terminal computes the specified state |
| HistoryStats.FirstWriteStays | ros2_ws/src/runtime_history/src/store.cpp:178-221 | under any later inserts a task keeps its one row as first written |
| HistoryStats.InsertAnswers | ros2_ws/src/runtime_history/src/store.cpp:178-221 | an insert is acknowledged exactly if the duration fits, the database works and the task is new or agrees on the compared fields |
| HistoryStats.DifferingRepeatIsRefused | ros2_ws/src/runtime_history/src/store.cpp:103-109 | a repeat is refused exactly if one of the compared fields differs |
| HistoryStats.CorrelationIdsAreNotCompared | ros2_ws/src/runtime_history/src/store.cpp:103-109 | a repeat under another request id is acknowledged and its id dropped |
| HistoryStats.PercentileIsNearestRank | ros2_ws/src/runtime_history/src/store.cpp:111-126 | the reported percentile is the one stored duration v with 100·#{x <= v} >= p·n and 100·#{x < v} < p·n |
| HistoryStats.OutcomesAreCounted | ros2_ws/src/runtime_history/src/store.cpp:378-413 | an outcome count is the number of rows with that outcome |
| HistoryStats.DurationsAreStored | ros2_ws/src/runtime_history/src/store.cpp:378-413 | the statistics are those of the stored durations |
| HistoryStats.PercentilesAreOrdered | ros2_ws/src/runtime_history/src/store.cpp:409-411 | p50 <= p95 <= p99 <= max |
| HistoryStats.Store.Insert | ros2_ws/src/runtime_history/src/store.cpp:178-221 | the imperative insert computes the specified table and answer |
| HistoryStats.Store.Stats | ros2_ws/src/runtime_history/src/store.cpp:378-413 | count, maximum, counts of the four outcomes, and nearest-rank percentiles of the stored durations |

## Left out

- ROS, gRPC, SQLite, SocketCAN, OpenCV and behaviour-tree internals; a tree is the status of each tick.
- Logging, diagnostics, stage events, feedback contents, health aggregation, message texts of results, CLI clients,
  HTTP model transport, launch files and process signals.
- The gateway service as a class: its RPC handlers and callbacks are steps on values, because several of them are in
  progress at once; its registry, ledger, store and pending goal are classes.
- GatewayService::clear at process exit, GetTask and GetStats, and the text of replies.
- A gateway cancel that throws something other than a standard exception; the source does not catch it either.
- Exceptions inside the bridge's worker thread; they end the process.
- Workflow generations in the orchestrator: one goal is modelled at a time. The source checks the generation and stores
  the gate in separate steps, so no exclusion is claimed across two goals.
- The ready condition and its retry node; their failure is a failing tick.
- The refusal of goals with bad targets or durations in the executor and the orchestrator, before the busy gate.
- Marker configurations that the constructor refuses by throwing; `Trigger` takes accepted ones.
- uint64 wrap-around of `percent * count` in the statistics, of counters in the recorder and of generation numbers.
- GatewayCancel.NoLostAndNoDoubleCancel: speaks of one life of a goals-map entry; the same request id entered again
  after it ended is a new entry.
- Gateway.Step: a late completion may overwrite a terminal ledger outcome of the same request; no claim is made about
  which of two outcomes stays.
- Timing bounds: a wait ends by its condition or by its timeout, and no lower or upper duration is claimed.
