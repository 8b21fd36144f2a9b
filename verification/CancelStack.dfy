/** One workflow through all layers. Orchestrator and executor each run their script while their terminal machine runs
    any interleaving; the bridge runs its script. The layers are tied together only by the results and refusals that
    cross between them. */
module CancelStack {
  import opened Common
  import opened Outcomes
  import opened CanProtocol
  import B = DeviceBridge
  import BridgeWire
  import E = ExecutorWorker
  import ET = ExecutorTerminal
  import RO = RetryOnce
  import RS = Restarts
  import VD = VirtualDevice
  import W = OrchestratorWorkflow
  import WT = OrchestratorTerminal

  /** The bridge goal of an accepted command. */
  datatype Bridge = Bridge(command: Command, stopId: uint16, script: B.Script)

  /** The task of an accepted child goal: its worker's script, and the run of the executor in which it is `goal`. */
  datatype Task = Task(script: E.Script, goal: nat, events: seq<ET.Event>, bridge: Option<Bridge>)

  /** The workflow's worker script, and the run of the orchestrator's terminal machine. */
  datatype Workflow = Workflow(script: W.Script, events: seq<WT.Event>, deadline: nat, task: Option<Task>)

  function BridgeResult(b: Bridge): GoalResult {
    B.GoalOutcome(b.command, b.stopId, b.script)
  }

  /** The terminal status the executor's run gave the task, if any. */
  function TaskResult(t: Task): Option<GoalResult> {
    var verdicts := ET.Run(ET.INIT, t.events).verdicts;
    if t.goal < |verdicts| then verdicts[t.goal] else None
  }

  function WorkflowRun(w: Workflow): WT.State {
    WT.Run(WT.INIT, w.events, w.deadline)
  }

  function WorkflowResult(w: Workflow): Option<GoalResult> {
    WorkflowRun(w).verdict
  }

  /** The worker claims the terminal status for what it reports. The executor's view of the bridge is true: a command
      that was accepted has a bridge goal, a goal exists only for a command that was sent and not refused, and a result
      that arrives is the one the bridge committed. */
  ghost predicate TaskLinked(t: Task) {
    && ET.Reports(t.events, t.goal, E.Report(t.script))
    && (t.bridge.Some? <==> E.Dispatched(t.script) && t.script.accepted)
    && (t.bridge.Some? && t.script.child.Some? ==> Delivers(t.script.child.value, BridgeResult(t.bridge.value)))
  }

  /** The same for the orchestrator and its view of the executor, which may have restarted before it ended the task. */
  ghost predicate Linked(w: Workflow) {
    && WT.Asks(w.events, W.Request(w.script))
    && (w.task.Some? ==> w.script.dispatched && TaskLinked(w.task.value))
    && (w.script.child.Some? ==> w.task.Some?)
    && (w.script.child.Some? && !IsUnknown(w.script.child.value) ==>
          && TaskResult(w.task.value).Some?
          && Delivers(w.script.child.value, TaskResult(w.task.value).value))
  }

  /** The frames that one task put on the bus. */
  function TaskFrames(t: Task): seq<RawFrame> {
    match t.bridge
    case None => []
    case Some(b) => BridgeWire.Frames(B.GoalWire(b.command, b.stopId, b.script))
  }

  /** The STOP for the task's command went out and its own response confirmed that the device has stopped. */
  ghost predicate StopWasConfirmed(t: Task) {
    && t.bridge.Some?
    && var b := t.bridge.value;
       && BridgeWire.StopConfirmed(b.stopId, b.script)
       && EncodeCommand(B.StopCommand(b.stopId, b.command)) in TaskFrames(t)
  }

  /** The first response with the command's own id after its last copy reported result 0. */
  ghost predicate Acknowledged(b: Bridge) {
    exists a: B.Attempt, response: Response, k: nat ::
      && (a == b.script.first || a == b.script.second)
      && B.FirstMatch(a.window, b.command.commandId, true, response, k)
      && response.resultCode == 0
  }

  // What a run commits

  /** A task that ends with anything but the abort ends with what its worker reported. */
  lemma TaskResultIsReported(t: Task)
    requires TaskLinked(t) && TaskResult(t).Some?
    ensures TaskResult(t) == Some(E.Report(t.script)) || TaskResult(t) == Some(ET.ABORT)
  {
    ET.VerdictIsReported(t.events, t.goal, E.Report(t.script));
  }

  /** A workflow that ends with anything but a safe stop ends with what its worker asked for. */
  lemma WorkflowResultIsRequested(w: Workflow)
    requires Linked(w) && WorkflowResult(w).Some?
    ensures || WorkflowResult(w) == Some(W.Request(w.script))
            || (WorkflowResult(w).value.code.Aborted? && WorkflowResult(w).value.outcome.SAFE_STOP?)
  {
    var accepted, at := WT.VerdictIsCommitment(w.events, W.Request(w.script), w.deadline);
  }

  // Cancelled

  lemma CanceledTaskIsHonest(t: Task)
    requires TaskLinked(t) && TaskResult(t).Some? && TaskResult(t).value.outcome.CANCELED?
    ensures TaskFrames(t) == [] || StopWasConfirmed(t)
    ensures t.bridge.Some? ==> BridgeResult(t.bridge.value).outcome.CANCELED?
  {
    var s := t.script;
    TaskResultIsReported(t);
    E.CanceledExactlyWhen(s);
    if t.bridge.Some? {
      var b := t.bridge.value;
      if exists k: nat :: E.CancelSeenAt(s.validation, k) {
        E.ValidationCancels(s.validation);
        assert false;
      }
      assert BridgeResult(b).outcome.CANCELED?;
      BridgeWire.CanceledIsHonest(b.command, b.stopId, b.script);
    }
  }

  /** In every run of the three layers, a workflow that ends CANCELED hides no device work: no child task was
      dispatched, or the child ended without any frame on the bus, or the STOP sent for its command was answered, under
      exactly the allocated STOP id, with result 0 and mode STOPPED. */
  lemma CanceledWorkflowIsHonest(w: Workflow)
    requires Linked(w) && WorkflowResult(w).Some? && WorkflowResult(w).value.outcome.CANCELED?
    ensures !w.script.dispatched
            || (w.task.Some? && (TaskFrames(w.task.value) == [] || StopWasConfirmed(w.task.value)))
  {
    WorkflowResultIsRequested(w);
    W.RequestIsHonest(w.script);
    if w.script.dispatched {
      CanceledTaskIsHonest(w.task.value);
    }
  }

  lemma CanceledTaskOnBridge(w: Workflow)
    requires Linked(w) && WorkflowResult(w).Some? && WorkflowResult(w).value.outcome.CANCELED?
    requires w.task.Some? && TaskFrames(w.task.value) != []
    ensures var b := w.task.value.bridge.value;
            BridgeResult(b).outcome.CANCELED? && !b.script.first.cancelingBefore
  {
    WorkflowResultIsRequested(w);
    W.RequestIsHonest(w.script);
    CanceledTaskIsHonest(w.task.value);
    var b := w.task.value.bridge.value;
    BridgeWire.CanceledIsHonest(b.command, b.stopId, b.script);
  }

  /** Down to the device, for every cache: if a workflow ends CANCELED although frames of its command were sent, and
      what the bridge heard under the STOP id were the device's replies, then the command was executed at most once,
      exactly if a copy arrived and its id was not cached, and the STOP last, exactly if its id was not cached when it
      arrived. */
  lemma CanceledWorkflowStopsDevice(
      w: Workflow, behaviour: VD.Behaviour, capacity: nat, d: VD.Device, delivered: seq<RawFrame>)
    returns (copies: nat)
    requires Linked(w) && WorkflowResult(w).Some? && WorkflowResult(w).value.outcome.CANCELED?
    requires w.task.Some? && TaskFrames(w.task.value) != []
    requires VD.Valid(behaviour, capacity, d)
    requires var b := w.task.value.bridge.value;
             && RO.Lossy(TaskFrames(w.task.value), delivered)
             && RO.HearsReplies(b.script.stopWindow, b.stopId,
                                RO.Deliver(behaviour, capacity, RO.Link(d, []), delivered).replies)
    ensures copies <= 2
    ensures var b := w.task.value.bridge.value;
            var stop := B.StopCommand(b.stopId, b.command);
            var middle := RO.Middle(behaviour, capacity, d, b.command, copies);
            var applied := RO.Deliver(behaviour, capacity, RO.Link(d, []), delivered).device.applied;
            && middle.applied == d.applied + RO.Executed(d, b.command, copies)
            && applied == middle.applied + (if b.stopId in middle.cache then [] else [stop])
            && (b.command.commandId !in d.cache && b.stopId !in d.cache && b.stopId != b.command.commandId ==>
                  applied == d.applied + [stop] || applied == d.applied + [b.command, stop])
  {
    hide VD.Valid, RO.Deliver, RO.Lossy, RO.HearsReplies, Linked;
    CanceledTaskOnBridge(w);
    var b := w.task.value.bridge.value;
    copies := RO.CanceledMeansDeviceStopped(behaviour, capacity, d, b.command, b.stopId, b.script, delivered);
    if b.command.commandId !in d.cache && b.stopId !in d.cache && b.stopId != b.command.commandId {
      RO.FreshStopIsExecuted(behaviour, capacity, d, b.command, b.stopId, b.script, delivered);
    }
  }

  /** The same when the device may restart while the frames arrive; the STOP is arrival `at`. */
  lemma CanceledWorkflowAcrossRestarts(
      w: Workflow, behaviour: VD.Behaviour, capacity: nat, d: VD.Device, arrivals: seq<RS.Arrival>)
    returns (at: nat)
    requires Linked(w) && WorkflowResult(w).Some? && WorkflowResult(w).value.outcome.CANCELED?
    requires w.task.Some? && TaskFrames(w.task.value) != []
    requires VD.Valid(behaviour, capacity, d)
    requires var b := w.task.value.bridge.value;
             && RO.Lossy(TaskFrames(w.task.value), RS.FramesOf(arrivals))
             && RO.HearsReplies(b.script.stopWindow, b.stopId,
                                RS.DeliverAll(behaviour, capacity, RO.Link(d, []), arrivals).replies)
    ensures at <= |arrivals|
    ensures var b := w.task.value.bridge.value;
            var frame, stop := EncodeCommand(b.command), B.StopCommand(b.stopId, b.command);
            var before := RS.DeliverAll(behaviour, capacity, RO.Link(d, []), arrivals[..at]).device;
            var turns := RS.Turns(frame, b.command.commandId in d.cache, arrivals[..at]);
            && (b.stopId == b.command.commandId
                || (at < |arrivals| && arrivals[at] == RS.Arrives(EncodeCommand(stop))))
            && before.applied == d.applied + BridgeWire.Repeat(b.command, turns) && turns <= 2
            && RS.DeliverAll(behaviour, capacity, RO.Link(d, []), arrivals).device.applied
               == before.applied + if b.stopId in before.cache then [] else [stop]
  {
    hide VD.Valid, RS.DeliverAll, RO.Lossy, RO.HearsReplies, Linked, RS.Turns;
    CanceledTaskOnBridge(w);
    var b := w.task.value.bridge.value;
    at := RS.CanceledAcrossRestarts(behaviour, capacity, d, b.command, b.stopId, b.script, arrivals);
  }

  // Succeeded

  lemma AcknowledgedWhenCompleted(b: Bridge)
    requires BridgeResult(b).outcome.COMPLETED?
    ensures Acknowledged(b)
    ensures exists n: nat :: 1 <= n <= 2 &&
              BridgeWire.Frames(B.GoalWire(b.command, b.stopId, b.script))
              == BridgeWire.Repeat(EncodeCommand(b.command), n)
  {
    BridgeWire.CompletedIsHonest(b.command, b.stopId, b.script);
    BridgeWire.FramesOnTheBus(b.command, b.stopId, b.script);
    var n := BridgeWire.CommandsSent(b.command, b.script);
    assert BridgeWire.Repeat(EncodeCommand(b.command), n) + [] == BridgeWire.Repeat(EncodeCommand(b.command), n);
    assert 1 <= n <= 2;
  }

  lemma SucceededTaskCompletedOnBridge(w: Workflow)
    requires Linked(w) && WorkflowResult(w).Some? && WorkflowResult(w).value.code.Succeeded?
    ensures w.task.Some? && w.task.value.bridge.Some?
    ensures BridgeResult(w.task.value.bridge.value).outcome.COMPLETED?
  {
    WorkflowResultIsRequested(w);
    W.RequestIsHonest(w.script);
    var t := w.task.value;
    TaskResultIsReported(t);
    E.CompletedExactlyWhen(t.script);
    E.ValidationPasses(t.script.validation);
  }

  /** Success, both ways: as long as no goal-handle call threw before it took effect, a workflow with a verdict
      succeeded exactly if its tree ended in time with nobody cancelling, the child's own result arrived and is a
      success, and the terminal status was reserved before the deadline with no cancel accepted before. */
  lemma WorkflowSucceedsExactlyWhen(w: Workflow)
    requires Linked(w) && WorkflowResult(w).Some? && !WT.SomeThrew(w.events)
    ensures var h := WorkflowRun(w).history;
            WorkflowResult(w).value.code.Succeeded? <==>
              && (exists k: nat :: W.TreeEndsAt(w.script, k)) && !w.script.cancelingAtFinish
              && w.script.child.Some? && w.script.child.value.code == Some(Succeeded)
              && w.script.child.value.payload.Some? && w.script.child.value.payload.value.outcome.COMPLETED?
              && exists k: nat ::
                   && k < |h| && h[k].Reserved? && h[k].at < w.deadline && WT.CancelAnswered(true) !in h[..k]
  {
    var h, request := WorkflowRun(w).history, W.Request(w.script);
    WT.EveryRunProgresses(w.events, w.deadline);
    var n := WT.ReservationIsARecord(h);
    WT.ReservationFollowsRequest(w.events, request, w.deadline, n);
    W.RequestSucceedsExactlyWhen(w.script);
    if k: nat :| k < |h| && h[k].Reserved? && h[k].at < w.deadline && WT.CancelAnswered(true) !in h[..k] {
      if k < n {
        WT.CancelAndTerminalAreLinearised(w.events, w.deadline, k, n);
      } else if n < k {
        WT.CancelAndTerminalAreLinearised(w.events, w.deadline, n, k);
      }
    }
  }

  /** In every run a workflow that ends SUCCEEDED had no accepted cancel, was reserved before its deadline, and its
      command was acknowledged by the device; only copies of the command were sent, and no STOP. */
  lemma SucceededWorkflowIsHonest(w: Workflow)
    requires Linked(w) && WorkflowResult(w).Some? && WorkflowResult(w).value.code.Succeeded?
    ensures WT.CancelAnswered(true) !in WorkflowRun(w).history
    ensures exists k: nat :: k < |WorkflowRun(w).history| && WorkflowRun(w).history[k].Reserved?
              && WorkflowRun(w).history[k].at < w.deadline
    ensures w.task.Some? && w.task.value.bridge.Some?
    ensures var b := w.task.value.bridge.value;
            && Acknowledged(b)
            && exists n: nat ::
                 1 <= n <= 2 && TaskFrames(w.task.value) == BridgeWire.Repeat(EncodeCommand(b.command), n)
  {
    WT.AcceptedCancelNeverSucceeds(w.events, w.deadline);
    WorkflowResultIsRequested(w);
    SucceededTaskCompletedOnBridge(w);
    AcknowledgedWhenCompleted(w.task.value.bridge.value);
  }

  /** Down to the device: if what the bridge heard under the command's id were the device's replies, a workflow that
      ends SUCCEEDED made the device execute its command exactly once, and nothing else, exactly if the id was not
      cached. */
  lemma SucceededWorkflowExecutesOnce(
      w: Workflow, behaviour: VD.Behaviour, capacity: nat, d: VD.Device, delivered: seq<RawFrame>)
    requires Linked(w) && WorkflowResult(w).Some? && WorkflowResult(w).value.code.Succeeded?
    requires VD.Valid(behaviour, capacity, d)
    requires w.task.Some? && w.task.value.bridge.Some? ==>
               var b := w.task.value.bridge.value;
               var replies := RO.Deliver(behaviour, capacity, RO.Link(d, []), delivered).replies;
               && RO.Lossy(TaskFrames(w.task.value), delivered)
               && RO.HearsReplies(b.script.first.window, b.command.commandId, replies)
               && RO.HearsReplies(b.script.second.window, b.command.commandId, replies)
    ensures w.task.Some? && w.task.value.bridge.Some?
    ensures var b := w.task.value.bridge.value;
            RO.Deliver(behaviour, capacity, RO.Link(d, []), delivered).device.applied
            == d.applied + if b.command.commandId in d.cache then [] else [b.command]
    ensures var b := w.task.value.bridge.value;
            b.command.commandId in d.cache ==>
              var entry := d.cache[b.command.commandId];
              entry.command == b.command && entry.response.Some? && entry.response.value.resultCode == 0
  {
    SucceededWorkflowIsHonest(w);
    SucceededTaskCompletedOnBridge(w);
    var b := w.task.value.bridge.value;
    RO.CompletedMeansExecuted(behaviour, capacity, d, b.command, b.stopId, b.script, delivered);
  }

  /** The same when the device may restart while the frames arrive: the command is executed twice exactly if a restart
      separates two copies of which the first was executed. */
  lemma SucceededWorkflowAcrossRestarts(
      w: Workflow, behaviour: VD.Behaviour, capacity: nat, d: VD.Device, arrivals: seq<RS.Arrival>)
    requires Linked(w) && WorkflowResult(w).Some? && WorkflowResult(w).value.code.Succeeded?
    requires VD.Valid(behaviour, capacity, d)
    requires w.task.Some? && w.task.value.bridge.Some? ==>
               var b := w.task.value.bridge.value;
               var replies := RS.DeliverAll(behaviour, capacity, RO.Link(d, []), arrivals).replies;
               && RO.Lossy(TaskFrames(w.task.value), RS.FramesOf(arrivals))
               && RO.HearsReplies(b.script.first.window, b.command.commandId, replies)
               && RO.HearsReplies(b.script.second.window, b.command.commandId, replies)
    ensures w.task.Some? && w.task.value.bridge.Some?
    ensures var b := w.task.value.bridge.value;
            var frame, cached := EncodeCommand(b.command), b.command.commandId in d.cache;
            var turns := RS.Turns(frame, cached, arrivals);
            && RS.DeliverAll(behaviour, capacity, RO.Link(d, []), arrivals).device.applied
               == d.applied + BridgeWire.Repeat(b.command, turns)
            && turns <= 2 && (!cached ==> turns >= 1)
            && (turns == 2 <==> RS.Separated(frame, cached, arrivals))
  {
    hide VD.Valid, RS.DeliverAll, RO.Lossy, RO.HearsReplies, Linked, RS.Turns, RS.Separated;
    SucceededTaskCompletedOnBridge(w);
    var b := w.task.value.bridge.value;
    RS.CompletedAcrossRestarts(behaviour, capacity, d, b.command, b.stopId, b.script, arrivals);
  }

  // A workflow that succeeds

  /** The tree ends in its first pass, the child's success is delivered, and nothing disturbs anybody. */
  function SmoothWorkflow(command: Command, stopId: uint16): Workflow {
    var success := Delivery(Some(Succeeded), Some(Payload(COMPLETED, 0)));
    var result := GoalResult(Succeeded, COMPLETED, 0);
    var calm := E.Look(true, false, false, false);
    var task := Task(
      E.Script([], 1000, false, false, [], true, false, false, true, false, [], false, Some(success), calm), 0,
      [ET.HandleGoal, ET.JoinPrevious(0), ET.ResetFlags(0), ET.StartWorker(0), ET.ClaimTerminal(0, result),
       ET.Transition(0, Returns)],
      Some(Bridge(command, stopId, RS.RetryScript(command.commandId))));
    Workflow(W.Script([W.Pass(true, false, false, W.Success, false)], false, true, false, Some(success)),
             [WT.CallTerminal(1, result), WT.Reserve(1), WT.CheckActive(1), WT.Transition(1, Returns)], 1, Some(task))
  }

  lemma TaskRunGoesOn(events: seq<ET.Event>, n: nat)
    requires n < |events|
    ensures ET.Run(ET.INIT, events[..n + 1]) == ET.Step(ET.Run(ET.INIT, events[..n]), events[n])
  {
    assert events[..n + 1][..n] == events[..n];
  }

  const SUCCESS := GoalResult(Succeeded, COMPLETED, 0)

  /** The executor after the first `n` of those events, but the last. */
  function SmoothTaskState(n: nat): ET.State {
    var s := ET.Accept(ET.INIT);
    var started := s.(accepting := map[], workers := map[0 := ET.Working], lastWorker := Some(0));
    match n
    case 0 => ET.INIT
    case 1 => s
    case 2 => s.(accepting := map[0 := ET.Joined])
    case 3 => s.(accepting := map[0 := ET.Ready])
    case 4 => started
    case _ => started.(workers := map[0 := ET.Committing(SUCCESS, false)], flags := ET.Flags(true, true, false))
  }

  lemma SmoothTaskStart()
    ensures ET.INIT == SmoothTaskState(0)
  {
  }

  lemma SmoothTaskStep(command: Command, stopId: uint16, n: nat)
    requires n < 5
    ensures ET.Step(SmoothTaskState(n), SmoothWorkflow(command, stopId).task.value.events[n]) == SmoothTaskState(n + 1)
  {
  }

  lemma SmoothTaskSucceeds(command: Command, stopId: uint16)
    ensures TaskResult(SmoothWorkflow(command, stopId).task.value) == Some(SUCCESS)
  {
    var events := SmoothWorkflow(command, stopId).task.value.events;
    assert ET.Step(SmoothTaskState(5), events[5]).verdicts == [Some(SUCCESS)];
    hide ET.Step, SmoothTaskState;
    var n := 0;
    SmoothTaskStart();
    while n < 5
      invariant n <= 5 && ET.Run(ET.INIT, events[..n]) == SmoothTaskState(n)
    {
      TaskRunGoesOn(events, n);
      SmoothTaskStep(command, stopId, n);
      n := n + 1;
    }
    TaskRunGoesOn(events, 5);
    assert events[..6] == events;
  }

  lemma SmoothRunSucceeds(command: Command, stopId: uint16)
    ensures WorkflowResult(SmoothWorkflow(command, stopId)) == Some(GoalResult(Succeeded, COMPLETED, 0))
  {
    var result, events := GoalResult(Succeeded, COMPLETED, 0), SmoothWorkflow(command, stopId).events;
    var s1 := WT.INIT.(winner := Some(1), callers := map[1 := WT.Reserving(result)]);
    var s2 := s1.(reserved := true, callers := map[1 := WT.Checking(result)], history := [WT.Reserved(result, 0)]);
    var s3 := s2.(callers := map[1 := WT.Transiting(result)]);
    assert WT.Step(WT.INIT, events[0], 1) == s1 && WT.Step(s1, events[1], 1) == s2;
    assert WT.Step(s2, events[2], 1) == s3 && WT.Step(s3, events[3], 1).verdict == Some(result);
    assert forall n :: 0 <= n < 4 ==> events[..n + 1][..n] == events[..n] && events[..n + 1][n] == events[n];
    assert WT.Run(WT.INIT, events[..0], 1) == WT.INIT;
    assert WT.Run(WT.INIT, events[..1], 1) == s1;
    assert WT.Run(WT.INIT, events[..2], 1) == s2;
    assert WT.Run(WT.INIT, events[..3], 1) == s3;
    assert events[..4] == events;
  }

  /** Success is possible: such a workflow fits together at every layer and ends SUCCEEDED. */
  lemma SmoothWorkflowSucceeds(command: Command, stopId: uint16)
    ensures var w := SmoothWorkflow(command, stopId);
            Linked(w) && WorkflowResult(w) == Some(GoalResult(Succeeded, COMPLETED, 0))
  {
    var w := SmoothWorkflow(command, stopId);
    SmoothTaskSucceeds(command, stopId);
    SmoothRunSucceeds(command, stopId);
    RS.RetryScriptEnds(command, stopId);
    var b := w.task.value.bridge.value;
    BridgeWire.CompletedIsHonest(b.command, b.stopId, b.script);
  }

  /** A workflow that reports COMPLETED succeeded exactly if the orchestrator was told the child's own result; it then
      is the successful workflow of the lemma above. */
  lemma CompletedWorkflowSucceededExactlyWhen(w: Workflow)
    requires Linked(w) && WorkflowResult(w).Some? && WorkflowResult(w).value.outcome.COMPLETED?
    ensures w.script.child.Some?
    ensures WorkflowResult(w).value.code.Succeeded? <==> w.script.child.value.code.Some?
  {
    WorkflowResultIsRequested(w);
    W.RequestIsHonest(w.script);
    if w.script.child.value.code.Some? {
      var t := w.task.value;
      TaskResultIsReported(t);
      E.CompletedExactlyWhen(t.script);
    }
  }

  // Device fault

  /** In every run a workflow that ends DEVICE_FAULT carries the device's own verdict: the bridge refused the command
      and nothing was sent for it, or the device answered the command with a failure code that reaches the caller, and
      no STOP was sent. */
  lemma DeviceFaultWorkflowIsHonest(w: Workflow)
    requires Linked(w) && WorkflowResult(w).Some? && WorkflowResult(w).value.outcome.DEVICE_FAULT?
    ensures w.task.Some?
    ensures var t, errorCode := w.task.value, WorkflowResult(w).value.errorCode;
            if t.bridge.None? then errorCode == E.ERROR_BRIDGE_REJECTED && TaskFrames(t) == []
            else
              var b := t.bridge.value;
              && B.StopWire(b.command, b.stopId, b.script) == []
              && exists response: Response ::
                   BridgeWire.DeviceRefused(b.command, b.script, response)
                   && errorCode == B.ERROR_DEVICE_REJECTED_BASE + response.resultCode
  {
    WorkflowResultIsRequested(w);
    W.RequestIsHonest(w.script);
    var t := w.task.value;
    TaskResultIsReported(t);
    E.DeviceFaultExactlyWhen(t.script);
    E.ValidationPasses(t.script.validation);
    if t.bridge.Some? {
      var b := t.bridge.value;
      BridgeWire.DeviceFaultIsHonest(b.command, b.stopId, b.script);
    }
  }

  // The gateway's record

  const ERROR_RESULT_UNAVAILABLE: uint16 := 500

  /** What the gateway records and later replays for a delivered workflow result; it does not look at the code. */
  function Recorded(d: Delivery): Payload {
    if d.payload.Some? then d.payload.value else Payload(SAFE_STOP, ERROR_RESULT_UNAVAILABLE)
  }

  /** A delivered result is recorded as it is; without a message it is a safe stop with code 500. */
  lemma DeliveredIsRecorded(d: Delivery)
    ensures d.payload.Some? ==>
              Recorded(d).outcome == d.payload.value.outcome && Recorded(d).errorCode == d.payload.value.errorCode
    ensures d.payload.None? ==> Recorded(d) == Payload(SAFE_STOP, 500)
    ensures forall r: GoalResult :: Delivers(d, r) && d.code.Some? ==>
              Recorded(d) == Payload(r.outcome, r.errorCode)
  {
  }

  /** A recorded CANCELED is always honest. */
  lemma RecordedCanceledIsHonest(w: Workflow, d: Delivery)
    requires Linked(w) && WorkflowResult(w).Some? && Delivers(d, WorkflowResult(w).value)
    requires Recorded(d).outcome.CANCELED?
    ensures !w.script.dispatched
            || (w.task.Some? && (TaskFrames(w.task.value) == [] || StopWasConfirmed(w.task.value)))
  {
    CanceledWorkflowIsHonest(w);
  }

  /** A recorded COMPLETED guarantees success exactly if the delivery carries the code SUCCEEDED: then, and only then,
      every result that may be behind the delivery is a success. */
  lemma RecordedCompletedIsHonestExactlyWhen(d: Delivery)
    requires Recorded(d).outcome.COMPLETED? && exists r: GoalResult :: Delivers(d, r)
    ensures (forall r: GoalResult :: Delivers(d, r) ==> r.code.Succeeded?) <==> d.code == Some(Succeeded)
  {
    if d.code.None? {
      assert Delivers(d, SafeStop(0));
    }
  }

  /** For a delivery that came with a code, the record is the workflow's own word, and a COMPLETED stands for success
      exactly if the orchestrator in turn was told the child's own result. */
  lemma CodedCompletedSucceededExactlyWhen(w: Workflow, d: Delivery)
    requires Linked(w) && WorkflowResult(w).Some? && Delivers(d, WorkflowResult(w).value)
    requires Recorded(d).outcome.COMPLETED? && d.code.Some?
    ensures WorkflowResult(w).value.outcome.COMPLETED? && w.script.child.Some?
    ensures d.code == Some(Succeeded) <==> w.script.child.value.code.Some?
  {
    CompletedWorkflowSucceededExactlyWhen(w);
  }

  /** Without a code the record may be wrong: whatever the workflow did, an unknown result is recorded as COMPLETED. */
  lemma UnknownResultIsRecordedCompleted(r: GoalResult)
    ensures Delivers(W.UNKNOWN_RESULT, r) && Recorded(W.UNKNOWN_RESULT) == Payload(COMPLETED, 0)
  {
  }
}
