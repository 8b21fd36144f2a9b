/** From the gateway's ledger to the device: how often the device acts for one request id. */
module EndToEnd {
  import opened Common
  import opened Outcomes
  import opened CanProtocol
  import B = DeviceBridge
  import BW = BridgeWire
  import CS = CancelStack
  import E = ExecutorWorker
  import ET = ExecutorTerminal
  import G = Gateway
  import GA = GatewayAnswers
  import GP = GatewayProof
  import GR = GatewayRuns
  import Requests
  import RO = RetryOnce
  import RS = Restarts
  import VD = VirtualDevice
  import W = OrchestratorWorkflow
  import WT = OrchestratorTerminal

  /** A goal the gateway sent: the request it was sent for, the workflow it became unless the orchestrator refused it,
      and what happened to the device during it: the frames of that workflow that the bus handed over, and restarts. */
  datatype Goal = Goal(requestId: string, workflow: Option<CS.Workflow>, arrivals: seq<RS.Arrival>)

  function BridgeOf(g: Goal): Option<CS.Bridge> {
    if g.workflow.Some? && g.workflow.value.task.Some? then g.workflow.value.task.value.bridge else None
  }

  function GoalFrames(g: Goal): seq<RawFrame> {
    if g.workflow.Some? && g.workflow.value.task.Some? then CS.TaskFrames(g.workflow.value.task.value) else []
  }

  /** The bus loses frames of a goal, but neither invents nor reorders them. */
  ghost predicate OnBus(g: Goal) {
    RO.Lossy(GoalFrames(g), RS.FramesOf(g.arrivals))
  }

  /** The device after one goal. */
  function Serve(behaviour: VD.Behaviour, capacity: nat, d: VD.Device, g: Goal): (r: VD.Device)
    requires VD.Valid(behaviour, capacity, d)
    ensures VD.Valid(behaviour, capacity, r)
  {
    RS.DeliverAll(behaviour, capacity, RO.Link(d, []), g.arrivals).device
  }

  /** The device after all goals, in the order in which their frames reached it. */
  function ServeAll(behaviour: VD.Behaviour, capacity: nat, d: VD.Device, goals: seq<Goal>): (r: VD.Device)
    requires VD.Valid(behaviour, capacity, d)
    ensures VD.Valid(behaviour, capacity, r)
    decreases |goals|
  {
    if goals == [] then d
    else
      var last := |goals| - 1;
      Serve(behaviour, capacity, ServeAll(behaviour, capacity, d, goals[..last]), goals[last])
  }

  /** What the device did apart from stopping. */
  function Actions(applied: seq<Command>): nat {
    if applied == [] then 0
    else
      var last := |applied| - 1;
      Actions(applied[..last]) + if applied[last].opcode == STOP_OPCODE then 0 else 1
  }

  /** How many actions the goals of one request id made the device take. */
  function ActionsFor(behaviour: VD.Behaviour, capacity: nat, d: VD.Device, goals: seq<Goal>, id: string): int
    requires VD.Valid(behaviour, capacity, d)
    decreases |goals|
  {
    if goals == [] then 0
    else
      var last := |goals| - 1;
      var before := ServeAll(behaviour, capacity, d, goals[..last]);
      var taken := Actions(Serve(behaviour, capacity, before, goals[last]).applied) - Actions(before.applied);
      ActionsFor(behaviour, capacity, d, goals[..last], id) + if goals[last].requestId == id then taken else 0
  }

  function GoalsFor(goals: seq<Goal>, id: string): nat
    decreases |goals|
  {
    if goals == [] then 0
    else GoalsFor(goals[..|goals| - 1], id) + if goals[|goals| - 1].requestId == id then 1 else 0
  }

  /** A restart separates two copies of the goal's command of which the first was executed. */
  ghost predicate Doubled(d: VD.Device, g: Goal) {
    && BridgeOf(g).Some?
    && var command := BridgeOf(g).value.command;
       && command.opcode != STOP_OPCODE
       && RS.Separated(EncodeCommand(command), command.commandId in d.cache, g.arrivals)
  }

  /** How many goals of one request id are doubled. */
  ghost function DoubledFor(
      behaviour: VD.Behaviour, capacity: nat, d: VD.Device, goals: seq<Goal>, id: string): nat
    requires VD.Valid(behaviour, capacity, d)
    decreases |goals|
  {
    if goals == [] then 0
    else
      var last := |goals| - 1;
      DoubledFor(behaviour, capacity, d, goals[..last], id)
      + if goals[last].requestId == id && Doubled(ServeAll(behaviour, capacity, d, goals[..last]), goals[last])
        then 1 else 0
  }

  // One goal

  lemma {:induction false} ActionsConcat(a: seq<Command>, b: seq<Command>)
    ensures Actions(a + b) == Actions(a) + Actions(b)
    decreases |b|
  {
    if b == [] {
      assert a + b == a;
    } else {
      var last := |b| - 1;
      assert (a + b)[..|a + b| - 1] == a + b[..last];
      ActionsConcat(a, b[..last]);
    }
  }

  lemma {:induction false} ActionsOfCopies(command: Command, n: nat)
    ensures Actions(BW.Repeat(command, n)) == if command.opcode == STOP_OPCODE then 0 else n
  {
    if n > 0 {
      assert BW.Repeat(command, n)[..n - 1] == BW.Repeat(command, n - 1);
      ActionsOfCopies(command, n - 1);
    }
  }

  lemma ActionsOfGoal(before: seq<Command>, command: Command, n: nat, stop: Command, k: nat)
    requires stop.opcode == STOP_OPCODE
    ensures Actions(before + BW.Repeat(command, n) + BW.Repeat(stop, k))
            == Actions(before) + if command.opcode == STOP_OPCODE then 0 else n
  {
    ActionsConcat(before + BW.Repeat(command, n), BW.Repeat(stop, k));
    ActionsConcat(before, BW.Repeat(command, n));
    ActionsOfCopies(command, n);
    ActionsOfCopies(stop, k);
  }

  lemma NoFramesNoActions(behaviour: VD.Behaviour, capacity: nat, d: VD.Device, arrivals: seq<RS.Arrival>)
    requires VD.Valid(behaviour, capacity, d) && RS.FramesOf(arrivals) == []
    ensures RS.DeliverAll(behaviour, capacity, RO.Link(d, []), arrivals).device.applied == d.applied
  {
    RS.RestartsExecuteNothing(behaviour, capacity, RO.Link(d, []), Command(0, STOP_OPCODE, 0), arrivals);
  }

  lemma FramesDiffer(command: Command, stop: Command)
    requires command != stop
    ensures EncodeCommand(command) != EncodeCommand(stop)
  {
    CommandRoundTrip(command);
    CommandRoundTrip(stop);
  }

  /** The actions of one goal with a bridge goal are the executions of its command. */
  lemma BridgeActs(behaviour: VD.Behaviour, capacity: nat, d: VD.Device, g: Goal)
    requires VD.Valid(behaviour, capacity, d) && OnBus(g) && BridgeOf(g).Some?
    ensures var command := BridgeOf(g).value.command;
            var turns := RS.Turns(EncodeCommand(command), command.commandId in d.cache, g.arrivals);
            && Actions(Serve(behaviour, capacity, d, g).applied)
               == Actions(d.applied) + (if command.opcode == STOP_OPCODE then 0 else turns)
            && (command.opcode != STOP_OPCODE ==> turns <= 2)
  {
    hide VD.Valid, RS.DeliverAll, RS.FramesOf, RS.Turns, RS.Separated, RO.Lossy, BW.Repeat, Actions, EncodeCommand;
    var b, a := BridgeOf(g).value, g.arrivals;
    var stop, cached := B.StopCommand(b.stopId, b.command), b.command.commandId in d.cache;
    var cut := RS.RetryAcrossRestarts(behaviour, capacity, d, b.command, b.stopId, b.script, a);
    var middle := RS.DeliverAll(behaviour, capacity, RO.Link(d, []), a[..cut]).device;
    ActionsOfGoal(d.applied, b.command, RS.Turns(EncodeCommand(b.command), cached, a[..cut]),
      stop, RS.Turns(EncodeCommand(stop), b.stopId in middle.cache, a[cut..]));
    if b.command.opcode != STOP_OPCODE {
      FramesDiffer(b.command, stop);
      assert a[..cut] + a[cut..] == a;
      RS.TurnsConcat(EncodeCommand(b.command), cached, a[..cut], a[cut..]);
    }
  }

  /** One goal makes the device act twice at most, whatever it has cached, and once at most exactly if the goal is not
      doubled. */
  lemma GoalActsAtMostOnceExactlyWhen(behaviour: VD.Behaviour, capacity: nat, d: VD.Device, g: Goal)
    requires VD.Valid(behaviour, capacity, d) && OnBus(g)
    ensures var before, after := Actions(d.applied), Actions(Serve(behaviour, capacity, d, g).applied);
            && before <= after <= before + 2
            && (after <= before + 1 <==> !Doubled(d, g))
  {
    hide VD.Valid, RS.DeliverAll, RS.FramesOf, RS.Turns, RS.Separated, Actions, EncodeCommand;
    if BridgeOf(g).Some? {
      var command := BridgeOf(g).value.command;
      BridgeActs(behaviour, capacity, d, g);
      RS.TurnsMoreThanOnce(EncodeCommand(command), command.commandId in d.cache, g.arrivals);
    } else {
      assert GoalFrames(g) == [];
      NoFramesNoActions(behaviour, capacity, d, g.arrivals);
    }
  }

  // All goals

  lemma {:induction false} ActionsAtMostGoals(
      behaviour: VD.Behaviour, capacity: nat, d: VD.Device, goals: seq<Goal>, id: string)
    requires VD.Valid(behaviour, capacity, d) && forall i :: 0 <= i < |goals| ==> OnBus(goals[i])
    ensures 0 <= ActionsFor(behaviour, capacity, d, goals, id)
    ensures ActionsFor(behaviour, capacity, d, goals, id)
            <= GoalsFor(goals, id) + DoubledFor(behaviour, capacity, d, goals, id)
    ensures DoubledFor(behaviour, capacity, d, goals, id) <= GoalsFor(goals, id)
    decreases |goals|
  {
    hide VD.Valid, OnBus, Serve, Actions, Doubled;
    if goals != [] {
      var last := |goals| - 1;
      ActionsAtMostGoals(behaviour, capacity, d, goals[..last], id);
      GoalActsAtMostOnceExactlyWhen(
        behaviour, capacity, ServeAll(behaviour, capacity, d, goals[..last]), goals[last]);
    }
  }

  /** Bounded over the whole stack. If every goal stems from a dispatch of the gateway, in any run with a careful
      operator, then, whatever the goals' workers, terminal machines and bridges do, whatever the bus loses, whenever
      the device restarts and whatever it has cached, it acts for a request id at most once more often than retention
      reclaimed its ledger row, and once more for every doubled goal; twice as often at most. */
  lemma DeviceActionsAreBounded(
      s: G.State, behaviour: VD.Behaviour, capacity: nat, d: VD.Device, goals: seq<Goal>, id: string)
    requires G.ReachableWith(G.Full, s)
    requires VD.Valid(behaviour, capacity, d)
    requires GoalsFor(goals, id) <= s.disk.dispatches[id]
    requires forall i :: 0 <= i < |goals| ==> OnBus(goals[i])
    ensures ActionsFor(behaviour, capacity, d, goals, id)
            <= s.disk.prunes[id] + 1 + DoubledFor(behaviour, capacity, d, goals, id)
    ensures ActionsFor(behaviour, capacity, d, goals, id) <= 2 * (s.disk.prunes[id] + 1)
  {
    hide G.ReachableWith, OnBus, VD.Valid;
    GP.AtMostOnce(s, id);
    ActionsAtMostGoals(behaviour, capacity, d, goals, id);
  }

  lemma {:induction false} NoneIsDoubled(
      behaviour: VD.Behaviour, capacity: nat, d: VD.Device, goals: seq<Goal>, id: string)
    requires VD.Valid(behaviour, capacity, d)
    requires forall i :: 0 <= i < |goals| && goals[i].requestId == id ==>
               !Doubled(ServeAll(behaviour, capacity, d, goals[..i]), goals[i])
    ensures DoubledFor(behaviour, capacity, d, goals, id) == 0
    decreases |goals|
  {
    hide VD.Valid, Serve, Doubled;
    if goals != [] {
      var last := |goals| - 1;
      assert forall i :: 0 <= i < last ==> goals[..last][..i] == goals[..i] && goals[..last][i] == goals[i];
      NoneIsDoubled(behaviour, capacity, d, goals[..last], id);
    }
  }

  /** At most once over the whole stack, with the same generality: as long as no goal of the request id is doubled, the
      device acts for it at most once more often than retention reclaimed its ledger row. */
  lemma DeviceActsAtMostOnce(
      s: G.State, behaviour: VD.Behaviour, capacity: nat, d: VD.Device, goals: seq<Goal>, id: string)
    requires G.ReachableWith(G.Full, s)
    requires VD.Valid(behaviour, capacity, d)
    requires GoalsFor(goals, id) <= s.disk.dispatches[id]
    requires forall i :: 0 <= i < |goals| ==> OnBus(goals[i])
    requires forall i :: 0 <= i < |goals| && goals[i].requestId == id ==>
               !Doubled(ServeAll(behaviour, capacity, d, goals[..i]), goals[i])
    ensures ActionsFor(behaviour, capacity, d, goals, id) <= s.disk.prunes[id] + 1
  {
    hide G.ReachableWith, OnBus, VD.Valid, Doubled;
    DeviceActionsAreBounded(s, behaviour, capacity, d, goals, id);
    NoneIsDoubled(behaviour, capacity, d, goals, id);
  }

  // A doubled goal

  /** A workflow under way: its task's command is accepted by the bridge, and no result has come back yet. */
  function UnderWay(b: CS.Bridge): CS.Workflow {
    var calm := E.Look(true, false, false, false);
    var task := E.Script([], 1000, false, false, [], true, false, false, true, false, [], false, None, calm);
    CS.Workflow(W.Script([], false, true, false, None), [], 0, Some(CS.Task(task, 0, [], Some(b))))
  }

  lemma UnderWayIsLinked(b: CS.Bridge)
    ensures CS.Linked(UnderWay(b))
  {
  }

  /** The device restarts between the two copies of the command. */
  function DoubledGoal(command: Command, stopId: uint16): Goal {
    Goal("x", Some(UnderWay(CS.Bridge(command, stopId, RS.RetryScript(command.commandId)))),
         RS.RestartBetween(command))
  }

  lemma DoubledGoalActsTwice(
      behaviour: VD.Behaviour, capacity: nat, d: VD.Device, command: Command, stopId: uint16)
    requires VD.Valid(behaviour, capacity, d) && command.commandId !in d.cache && command.opcode != STOP_OPCODE
    ensures var g := DoubledGoal(command, stopId);
            && OnBus(g)
            && Actions(Serve(behaviour, capacity, d, g).applied) == Actions(d.applied) + 2
  {
    hide VD.Valid, RS.DeliverAll, RS.FramesOf, RS.RetryScript, RO.Lossy, Actions, EncodeCommand, BW.Frames, B.GoalWire;
    RS.RetryScriptEnds(command, stopId);
    RS.RestartBetweenServes(behaviour, capacity, d, command);
    RO.LossyKeepsAll([EncodeCommand(command), EncodeCommand(command)]);
    assert BW.Repeat(command, 2) == [command, command];
    ActionsConcat(d.applied, BW.Repeat(command, 2));
    ActionsOfCopies(command, 2);
  }

  /** At most once fails with a doubled goal: the gateway dispatches once and reclaims no row, the bus loses nothing,
      the layers above are under way as they should be, and the device acts twice. */
  lemma RestartMayDoubleOneDispatch(
      behaviour: VD.Behaviour, capacity: nat, d: VD.Device, command: Command, stopId: uint16,
      registryCapacity: nat, ledgerCapacity: nat)
    returns (s: G.State)
    requires registryCapacity >= 1 && ledgerCapacity >= 1
    requires VD.Valid(behaviour, capacity, d) && command.commandId !in d.cache && command.opcode != STOP_OPCODE
    ensures G.ReachableWith(G.Full, s) && s.disk.dispatches["x"] == 1 && s.disk.prunes["x"] == 0
    ensures var goals := [DoubledGoal(command, stopId)];
            && CS.Linked(goals[0].workflow.value) && OnBus(goals[0])
            && GoalsFor(goals, "x") == 1
            && ActionsFor(behaviour, capacity, d, goals, "x") == 2
  {
    hide G.ReachableWith, VD.Valid, OnBus, Serve, Actions, CS.Linked, UnderWay, RS.RetryScript, RS.RestartBetween;
    s := GR.DispatchIsReachable(G.Full, registryCapacity, ledgerCapacity);
    var goals := [DoubledGoal(command, stopId)];
    UnderWayIsLinked(CS.Bridge(command, stopId, RS.RetryScript(command.commandId)));
    DoubledGoalActsTwice(behaviour, capacity, d, command, stopId);
    assert goals[..0] == [];
    assert ServeAll(behaviour, capacity, d, []) == d;
    assert ActionsFor(behaviour, capacity, d, [], "x") == 0 && GoalsFor([], "x") == 0;
  }

  // Results

  /** An outcome as it travels in a result message. */
  function OutcomeNumber(outcome: Outcome): uint8 {
    match outcome
    case COMPLETED => 0
    case CANCELED => 1
    case SAFE_STOP => 2
    case DEVICE_FAULT => 3
  }

  function StateOf(outcome: Outcome): Requests.RequestState {
    match outcome
    case COMPLETED => Requests.Completed
    case CANCELED => Requests.Canceled
    case SAFE_STOP => Requests.SafeStop
    case DEVICE_FAULT => Requests.DeviceFault
  }

  /** What a workflow ended with is what a client is told, also after a crash of the gateway and a retry: if its result
      is delivered with a code and recorded, the retry is answered with the state of just this outcome and with its
      error code, and nothing is sent again. */
  lemma WorkflowResultReachesTheClient(
      s: G.State, t: int, id: string, w: CS.Workflow, d: Delivery, nowNs: int, u: int, again: Requests.RequestRecord)
    requires CS.WorkflowResult(w).Some? && Delivers(d, CS.WorkflowResult(w).value) && d.code.Some?
    requires t !in s.threads && id in s.flights && s.flights[id].AwaitingResult? && id in s.goals
    requires s.goals[id].payload.requestId == id && GA.Storable(s, s.goals[id].payload)
    requires G.ValidRequest(again) && Requests.SamePayload(again, s.goals[id].payload) && s.registryCapacity >= 1
    ensures var result, told := CS.WorkflowResult(w).value, CS.Recorded(d);
            var arrived := G.Step(s, G.ResultArrived(t, id, OutcomeNumber(told.outcome), told.errorCode));
            var recorded := G.Step(arrived, G.LogResult(t, nowNs, true));
            var next := GA.Resubmitted(G.Step(recorded, G.Crash), u, again);
            && id in next.registry.records
            && next.registry.records[id].state == StateOf(result.outcome)
            && next.registry.records[id].outcome == OutcomeNumber(result.outcome)
            && next.registry.records[id].errorCode == result.errorCode
            && next.disk.dispatches == s.disk.dispatches && next.goals == map[]
  {
    hide G.Step, GA.Resubmitted;
    CS.DeliveredIsRecorded(d);
    GA.RecordedResultSurvivesCrash(
      s, t, id, OutcomeNumber(CS.Recorded(d).outcome), CS.Recorded(d).errorCode, nowNs, u, again);
    GA.StatesOfOutcomes(OutcomeNumber(CS.Recorded(d).outcome));
  }
}
