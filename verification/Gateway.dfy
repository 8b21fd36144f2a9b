/** The gateway as a state machine: submit threads, action callbacks, the operator, retention, shutdown and crashes
    interleave freely. Every event is one critical section of the registry, the store or the service mutex; an event
    whose guard is false changes nothing. */
module Gateway {
  import opened Common
  import opened Requests
  import TimeBudget
  import L = Ledger
  import R = RequestRegistry

  /** Where a thread stands between two critical sections. `record` is the request it works for. */
  datatype Phase =
    | Arrived(record: RequestRecord)
    | Reserved(record: RequestRecord)
    | Checked(record: RequestRecord)
    | ReadAbsent(record: RequestRecord)
    | Swept(record: RequestRecord, nowNs: int)
    | Counted(record: RequestRecord, nowNs: int)
    | Claimed(record: RequestRecord)
    | Sending(record: RequestRecord)
    | SendThrew(record: RequestRecord)
    | Answering(record: RequestRecord, state: RequestState, outcome: uint8, errorCode: uint16)
    | Dropping(record: RequestRecord)
    | Rejecting(record: RequestRecord, errorCode: uint16)
    | Awaiting(record: RequestRecord)
    | Refused(record: RequestRecord)
    | RefusedLogged(record: RequestRecord)
    | Finishing(record: RequestRecord, state: RequestState, outcome: uint8, errorCode: uint16)
    | Deciding(record: RequestRecord, fingerprint: string, state: RequestState)
    | Decided(record: RequestRecord, fingerprint: string, state: RequestState)
    | Resolving(record: RequestRecord, state: RequestState)

  /** A goal sent to the orchestrator whose callbacks may still come. */
  datatype Flight = AwaitingResponse | AwaitingResult

  /** An entry of the goals map, as far as admission and shutdown look at it; its cancel flags are in GatewayCancel. */
  datatype GoalEntry = GoalEntry(payload: RequestRecord, cancelFailed: bool)

  /** What survives a crash: the ledger, and three counters of this model (claims granted, rows reclaimed, goals sent
      per request id). */
  datatype Disk = Disk(
    rows: L.Table, claims: multiset<string>, prunes: multiset<string>, dispatches: multiset<string>)

  datatype State = State(
    registryCapacity: nat, ledgerCapacity: nat, disk: Disk, registry: R.Registry,
    threads: map<int, Phase>, goals: map<string, GoalEntry>, flights: map<string, Flight>,
    stopping: bool, drained: bool)

  /** A freshly started process over the given disk. */
  function Start(registryCapacity: nat, ledgerCapacity: nat, disk: Disk): State {
    State(registryCapacity, ledgerCapacity, disk, R.Registry(map[], []), map[], map[], map[], false, false)
  }

  function Init(registryCapacity: nat, ledgerCapacity: nat): State {
    Start(registryCapacity, ledgerCapacity, Disk(map[], multiset{}, multiset{}, multiset{}))
  }

  datatype Event =
    // SubmitWorkflow, in program order
    | Arrive(t: int, record: RequestRecord)
    | Reserve(t: int)
    | CheckHistory(t: int, unused: bool)
    | ReadLedger(t: int, readOk: bool)
    | SweepLedger(t: int, nowNs: int, pruneOk: bool)
    | CountLedger(t: int, countOk: bool)
    | WriteLedger(t: int, putOk: bool)
    | Answer(t: int)
    | Drop(t: int)
    | Intake(t: int, serverReady: bool)
    | Send(t: int, ok: bool)
    | RecoverSend(t: int)
    | LogRejection(t: int, nowNs: int, databaseOk: bool)
    | StopWaiting(t: int, late: bool)
    // action callbacks
    | GoalAccepted(id: string, cancelRequested: bool)
    | GoalRefused(t: int, id: string)
    | LogRefusal(t: int, nowNs: int, databaseOk: bool)
    | ShowRefusal(t: int)
    | ResultArrived(t: int, id: string, outcome: uint8, errorCode: uint16)
    | LogResult(t: int, nowNs: int, databaseOk: bool)
    // the operator's ResolveUncertain
    | ResolveRead(t: int, id: string, state: RequestState, readOk: bool)
    | ResolveCheck(t: int, readOk: bool)
    | ResolveWrite(t: int, nowNs: int, putOk: bool)
    | ResolveRegistry(t: int)
    // cancel, retention, shutdown, crash
    | MarkCanceling(id: string, outcome: uint8, errorCode: uint16)
    | CancelThrew(id: string)
    | CancelRetried(id: string)
    | PruneLedger(nowNs: int)
    | StopAccepting
    | CancelActiveReturns
    | Crash

  /** The gateway's request check. */
  predicate ValidRequest(r: RequestRecord) {
    && r.requestId != "" && r.workflowId != "" && r.taskId != "" && r.targetId != ""
    && 0 < r.timeoutMs <= TimeBudget.GATEWAY_MAX_TIMEOUT_MS
    && r.state == Submitting
  }

  predicate AllowedWorkflow(workflowId: string) {
    workflowId == "single_task" || workflowId == "ready_then_task"
  }

  /** The record of a resolve, which knows the id only. */
  function NoRequest(id: string): RequestRecord {
    RequestRecord(id, "", "", "", 0, Rejected, 0, 0, "")
  }

  /** The phases in which a thread may still turn its request's registry record into a finished one. */
  predicate Owns(p: Phase) {
    p.Reserved? || p.Checked? || p.ReadAbsent? || p.Swept? || p.Counted? || p.Claimed? || p.Sending? || p.SendThrew?
    || p.Answering? || p.Dropping? || p.Refused? || p.RefusedLogged?
  }

  predicate Resolves(p: Phase) {
    p.Deciding? || p.Decided? || p.Resolving?
  }

  /** A submit or callback thread is at work on `id`. */
  ghost predicate Worked(s: State, id: string) {
    exists t :: t in s.threads && Owns(s.threads[t]) && s.threads[t].record.requestId == id
  }

  function Set(s: State, t: int, p: Phase): State {
    s.(threads := s.threads[t := p])
  }

  function End(s: State, t: int): State {
    s.(threads := s.threads - {t})
  }

  function Show(s: State, id: string, state: RequestState, outcome: uint8, errorCode: uint16): State {
    s.(registry := R.Update(s.registry, id, state, outcome, errorCode, ""))
  }

  function Forget(s: State, id: string): State {
    s.(registry := R.Erase(s.registry, id))
  }

  /** Replaces the table by what retention left of it and counts the rows that are gone. */
  function Sweep(disk: Disk, kept: L.Table): Disk {
    disk.(rows := kept, prunes := disk.prunes + multiset(disk.rows.Keys - kept.Keys))
  }

  function Claim(disk: Disk, rows: L.Table, id: string): Disk {
    disk.(rows := rows, claims := disk.claims + multiset{id})
  }

  ghost function ReserveStep(s: State, t: int): (r: State)
    requires t in s.threads
    ensures r.disk == s.disk && r.goals == s.goals && r.flights == s.flights
    ensures r.stopping == s.stopping && r.drained == s.drained
  {
    var record := s.threads[t].record;
    var (registry, result) := R.Insert(s.registry, s.registryCapacity, record);
    if result == R.Inserted then Set(s.(registry := registry), t, Reserved(record)) else End(s, t)
  }

  /** Where the ledger's first answer sends the thread. */
  function AfterRead(rows: L.Table, record: RequestRecord, readOk: bool): (p: Phase)
    ensures p.record == record && (p.ReadAbsent? || p.Answering? || p.Dropping?)
    ensures p.ReadAbsent? ==> record.requestId !in rows
  {
    var known := L.AdmitRead(rows, record, readOk);
    if known.None? then ReadAbsent(record)
    else match known.value.decision
      case Unresolved =>
        Answering(record, Uncertain, 0, if known.value.errorCode == 0 then 409 else known.value.errorCode)
      case Replay => Answering(record, known.value.state.GetOr(Uncertain), known.value.outcome, known.value.errorCode)
      case _ => Dropping(record)
  }

  /** Retention; when it fails, the count is skipped as well. */
  function SweepStep(s: State, t: int, nowNs: int, pruneOk: bool): State
    requires t in s.threads
  {
    var record := s.threads[t].record;
    Set(s.(disk := Sweep(s.disk, L.AfterRetention(s.disk.rows, nowNs, pruneOk))), t,
        if pruneOk then Swept(record, nowNs) else Counted(record, nowNs))
  }

  function CountStep(s: State, t: int, countOk: bool): State
    requires t in s.threads && s.threads[t].Swept?
  {
    var p := s.threads[t];
    Set(s, t, if L.HasRoom(s.disk.rows, s.ledgerCapacity, p.nowNs, countOk) then Counted(p.record, p.nowNs)
              else Dropping(p.record))
  }

  function WriteStep(s: State, t: int, putOk: bool): State
    requires t in s.threads && s.threads[t].Counted?
  {
    var p := s.threads[t];
    var (rows, ok) := L.Put(s.disk.rows, L.ClaimRow(p.record, p.nowNs), putOk);
    if ok then Set(s.(disk := Claim(s.disk, rows, p.record.requestId)), t, Claimed(p.record))
    else Set(s, t, Dropping(p.record))
  }

  function IntakeStep(s: State, t: int, serverReady: bool): (r: State)
    requires t in s.threads
    ensures r.disk == s.disk && r.flights == s.flights && r.stopping == s.stopping && r.drained == s.drained
    ensures s.stopping ==> r.goals == s.goals
  {
    var record := s.threads[t].record;
    var id := record.requestId;
    if !AllowedWorkflow(record.workflowId) then Set(Show(s, id, Rejected, 0, 400), t, Rejecting(record, 400))
    else if !serverReady || s.stopping then Set(Show(s, id, Rejected, 0, 503), t, Rejecting(record, 503))
    else
      var goals := if id in s.goals then s.goals else s.goals[id := GoalEntry(record, false)];
      Set(s.(goals := goals), t, Sending(record))
  }

  function SendStep(s: State, t: int, ok: bool): State
    requires t in s.threads
  {
    var record := s.threads[t].record;
    if ok then
      Set(s.(disk := s.disk.(dispatches := s.disk.dispatches + multiset{record.requestId}),
             flights := s.flights[record.requestId := AwaitingResponse]), t, Awaiting(record))
    else Set(s, t, SendThrew(record))
  }

  function RecoverStep(s: State, t: int): State
    requires t in s.threads
  {
    var record := s.threads[t].record;
    Set(Show(s.(goals := s.goals - {record.requestId}), record.requestId, Rejected, 0, 503), t, Rejecting(record, 503))
  }

  /** `late`: the wait ran out before any cancel was asked for. */
  function StopWaitingStep(s: State, t: int, late: bool): State
    requires t in s.threads
  {
    var id := s.threads[t].record.requestId;
    End(if late && id in s.goals then Show(s, id, TimedOut, 0, 504) else s, t)
  }

  function LogStep(
      s: State, t: int, state: RequestState, outcome: uint8, errorCode: uint16, nowNs: int, ok: bool): State
    requires t in s.threads
  {
    var rows := L.Complete(s.disk.rows, s.threads[t].record, state, outcome, errorCode, "", nowNs, ok).0;
    s.(disk := s.disk.(rows := rows))
  }

  function AcceptStep(s: State, id: string, cancelRequested: bool): State {
    var next := s.(flights := s.flights[id := AwaitingResult]);
    if id in s.goals then Show(next, id, if s.stopping || cancelRequested then Canceling else Running, 0, 0) else next
  }

  function RefuseStep(s: State, t: int, id: string): State {
    var next := s.(flights := s.flights - {id});
    if id !in s.goals then next
    else if s.goals[id].payload.requestId == "" then next.(goals := s.goals - {id})
    else Set(next.(goals := s.goals - {id}), t, Refused(s.goals[id].payload))
  }

  function Landed(s: State, id: string): State {
    s.(flights := s.flights - {id}, goals := s.goals - {id})
  }

  /** The state shown and recorded for an outcome. */
  function StateForOutcome(outcome: uint8): (state: RequestState)
    ensures IsTerminal(state)
  {
    match outcome
    case 0 => Completed
    case 1 => Canceled
    case 2 => SafeStop
    case 3 => DeviceFault
    case _ => Aborted
  }

  function ResultStep(s: State, t: int, id: string, outcome: uint8, errorCode: uint16): State {
    var state := StateForOutcome(outcome);
    var next := Show(Landed(s, id), id, state, outcome, errorCode);
    if id in s.goals && s.goals[id].payload.requestId != "" then
      Set(next, t, Finishing(s.goals[id].payload, state, outcome, errorCode))
    else next
  }

  /** The RPC's own look at the row, which also supplies the fingerprint. */
  function ResolveReadStep(s: State, t: int, id: string, state: RequestState): State {
    if id in s.disk.rows && !IsTerminal(s.disk.rows[id].state) && IsTerminal(state) then
      Set(s, t, Deciding(NoRequest(id), s.disk.rows[id].fingerprint, state))
    else s
  }

  function ResolveCheckStep(s: State, t: int, readOk: bool): State
    requires t in s.threads && s.threads[t].Deciding?
  {
    var p := s.threads[t];
    var id := p.record.requestId;
    if readOk && id in s.disk.rows && !IsTerminal(s.disk.rows[id].state)
       && s.disk.rows[id].fingerprint == p.fingerprint
    then Set(s, t, Decided(p.record, p.fingerprint, p.state))
    else End(s, t)
  }

  function ResolveWriteStep(s: State, t: int, nowNs: int, putOk: bool): State
    requires t in s.threads && s.threads[t].Decided?
  {
    var p := s.threads[t];
    var (rows, ok) := L.Put(s.disk.rows, L.Row(p.record.requestId, p.fingerprint, p.state, 0, 0, "", nowNs), putOk);
    if ok then Set(s.(disk := s.disk.(rows := rows)), t, Resolving(p.record, p.state)) else End(s, t)
  }

  function ShowResolution(s: State, t: int): State
    requires t in s.threads && s.threads[t].Resolving?
  {
    End(Show(s, s.threads[t].record.requestId, s.threads[t].state, 0, 0), t)
  }

  /** cancel_active's wait ends normally when every pending goal is marked failed, and it then throws if any is. */
  ghost predicate CancelActiveSucceeds(s: State) {
    && s.stopping
    && (forall id :: id in s.goals ==> s.goals[id].cancelFailed)
    && !(exists id :: id in s.goals && s.goals[id].cancelFailed)
  }

  /** SubmitWorkflow up to its claim. */
  ghost function AdmitStep(s: State, e: Event): State {
    match e
    case Arrive(t, record) =>
      if t !in s.threads && !s.stopping && ValidRequest(record) then Set(s, t, Arrived(record)) else s
    case Reserve(t) => if t in s.threads && s.threads[t].Arrived? then ReserveStep(s, t) else s
    case CheckHistory(t, unused) =>
      if t in s.threads && s.threads[t].Reserved? then
        Set(s, t, if unused then Checked(s.threads[t].record) else Dropping(s.threads[t].record))
      else s
    case ReadLedger(t, readOk) =>
      if t in s.threads && s.threads[t].Checked? then Set(s, t, AfterRead(s.disk.rows, s.threads[t].record, readOk))
      else s
    case SweepLedger(t, nowNs, pruneOk) =>
      if t in s.threads && s.threads[t].ReadAbsent? then SweepStep(s, t, nowNs, pruneOk) else s
    case CountLedger(t, countOk) => if t in s.threads && s.threads[t].Swept? then CountStep(s, t, countOk) else s
    case WriteLedger(t, putOk) => if t in s.threads && s.threads[t].Counted? then WriteStep(s, t, putOk) else s
    case _ => s
  }

  /** The rest of SubmitWorkflow. */
  function DispatchStep(s: State, e: Event): State {
    match e
    case Answer(t) =>
      if t in s.threads && s.threads[t].Answering? then
        var p := s.threads[t]; End(Show(s, p.record.requestId, p.state, p.outcome, p.errorCode), t)
      else s
    case Drop(t) =>
      if t in s.threads && s.threads[t].Dropping? then End(Forget(s, s.threads[t].record.requestId), t) else s
    case Intake(t, serverReady) =>
      if t in s.threads && s.threads[t].Claimed? then IntakeStep(s, t, serverReady) else s
    case Send(t, ok) => if t in s.threads && s.threads[t].Sending? then SendStep(s, t, ok) else s
    case RecoverSend(t) => if t in s.threads && s.threads[t].SendThrew? then RecoverStep(s, t) else s
    case LogRejection(t, nowNs, databaseOk) =>
      if t in s.threads && s.threads[t].Rejecting? then
        End(LogStep(s, t, Rejected, 0, s.threads[t].errorCode, nowNs, databaseOk), t)
      else s
    case StopWaiting(t, late) => if t in s.threads && s.threads[t].Awaiting? then StopWaitingStep(s, t, late) else s
    case _ => s
  }

  function CallbackStep(s: State, e: Event): State {
    match e
    case GoalAccepted(id, cancelRequested) =>
      if id in s.flights && s.flights[id].AwaitingResponse? then AcceptStep(s, id, cancelRequested) else s
    case GoalRefused(t, id) =>
      if t !in s.threads && id in s.flights && s.flights[id].AwaitingResponse? then RefuseStep(s, t, id) else s
    case LogRefusal(t, nowNs, databaseOk) =>
      if t in s.threads && s.threads[t].Refused? then
        Set(LogStep(s, t, Rejected, 0, 400, nowNs, databaseOk), t, RefusedLogged(s.threads[t].record))
      else s
    case ShowRefusal(t) =>
      if t in s.threads && s.threads[t].RefusedLogged? then
        End(Show(s, s.threads[t].record.requestId, Rejected, 0, 400), t)
      else s
    case ResultArrived(t, id, outcome, errorCode) =>
      if t !in s.threads && id in s.flights && s.flights[id].AwaitingResult? then
        ResultStep(s, t, id, outcome, errorCode)
      else s
    case LogResult(t, nowNs, databaseOk) =>
      if t in s.threads && s.threads[t].Finishing? then
        var p := s.threads[t];
        End(LogStep(s, t, p.state, p.outcome, p.errorCode, nowNs, databaseOk), t)
      else s
    case _ => s
  }

  function OperatorStep(s: State, e: Event): State {
    match e
    case ResolveRead(t, id, state, readOk) =>
      if t !in s.threads && readOk then ResolveReadStep(s, t, id, state) else s
    case ResolveCheck(t, readOk) =>
      if t in s.threads && s.threads[t].Deciding? then ResolveCheckStep(s, t, readOk) else s
    case ResolveWrite(t, nowNs, putOk) =>
      if t in s.threads && s.threads[t].Decided? then ResolveWriteStep(s, t, nowNs, putOk) else s
    case ResolveRegistry(t) => if t in s.threads && s.threads[t].Resolving? then ShowResolution(s, t) else s
    case _ => s
  }

  function Mark(s: State, id: string, failed: bool): (r: State)
    requires id in s.goals
    ensures r.goals.Keys == s.goals.Keys
  {
    s.(goals := s.goals[id := s.goals[id].(cancelFailed := failed)])
  }

  /** What cancelling does to the goals map and the registry; who dispatches is GatewayCancel's matter. A cancel request
      keeps the outcome and error code it read before. */
  function CancelStep(s: State, e: Event): State {
    match e
    case MarkCanceling(id, outcome, errorCode) =>
      if id in s.goals then Show(s, id, Canceling, outcome, errorCode) else s
    case CancelThrew(id) =>
      if id in s.goals then Show(Mark(s, id, true), id, CancelFailed, 0, 500) else s
    case CancelRetried(id) => if id in s.goals then Mark(s, id, false) else s
    case _ => s
  }

  /** Retention, shutdown and crashes. */
  ghost function ProcessStep(s: State, e: Event): State {
    match e
    case PruneLedger(nowNs) =>
      s.(disk := Sweep(s.disk, L.Prune(s.disk.rows, L.HorizonStart(nowNs))))
    case StopAccepting => s.(stopping := true)
    case CancelActiveReturns => if CancelActiveSucceeds(s) then s.(drained := true) else s
    case Crash => Start(s.registryCapacity, s.ledgerCapacity, s.disk)
    case _ => s
  }

  predicate IsAdmit(e: Event) {
    e.Arrive? || e.Reserve? || e.CheckHistory? || e.ReadLedger? || e.SweepLedger? || e.CountLedger? || e.WriteLedger?
  }

  predicate IsDispatch(e: Event) {
    e.Answer? || e.Drop? || e.Intake? || e.Send? || e.RecoverSend? || e.LogRejection? || e.StopWaiting?
  }

  predicate IsCallback(e: Event) {
    e.GoalAccepted? || e.GoalRefused? || e.LogRefusal? || e.ShowRefusal? || e.ResultArrived? || e.LogResult?
  }

  predicate IsOperator(e: Event) {
    e.ResolveRead? || e.ResolveCheck? || e.ResolveWrite? || e.ResolveRegistry?
  }

  predicate IsCancel(e: Event) {
    e.MarkCanceling? || e.CancelThrew? || e.CancelRetried?
  }

  ghost function Step(s: State, e: Event): State {
    if IsAdmit(e) then AdmitStep(s, e)
    else if IsDispatch(e) then DispatchStep(s, e)
    else if IsCallback(e) then CallbackStep(s, e)
    else if IsOperator(e) then OperatorStep(s, e)
    else if IsCancel(e) then CancelStep(s, e)
    else ProcessStep(s, e)
  }

  ghost function Run(s: State, events: seq<Event>): State {
    if events == [] then s else Step(Run(s, events[..|events| - 1]), events[|events| - 1])
  }

  ghost predicate Unresolved(s: State, id: string) {
    forall t :: t in s.threads && Resolves(s.threads[t]) ==> s.threads[t].record.requestId != id
  }

  /** What a run is relied on for. `Full` is what ResolveUncertain asks of its caller: an id is resolved only while no
      thread works on it and no callback of it is outstanding, and no request is submitted under it until the resolve
      has returned. The next two drop one half each; `WorkingCounts` adds that no retention and no
      count of the ledger fails. */
  datatype Reliance = Full | IgnoringCallbacks | IgnoringResubmission | WorkingCounts

  ghost predicate Heeds(r: Reliance, s: State, e: Event) {
    && (e.ResolveRead? ==> !Worked(s, e.id) && (r.IgnoringCallbacks? || e.id !in s.flights))
    && (e.Reserve? && e.t in s.threads && !r.IgnoringResubmission? ==>
          Unresolved(s, s.threads[e.t].record.requestId))
    && (e.SweepLedger? && r.WorkingCounts? ==> e.pruneOk)
    && (e.CountLedger? && r.WorkingCounts? ==> e.countOk)
  }

  ghost predicate HeedingRun(r: Reliance, s: State, events: seq<Event>) {
    events != [] ==>
      && HeedingRun(r, s, events[..|events| - 1])
      && Heeds(r, Run(s, events[..|events| - 1]), events[|events| - 1])
  }

  /** A state of some run from an empty disk. */
  ghost predicate Reachable(s: State) {
    exists registryCapacity: nat, ledgerCapacity: nat, events: seq<Event> ::
      s == Run(Init(registryCapacity, ledgerCapacity), events)
  }

  /** The same, for runs that can be relied on. */
  ghost predicate ReachableWith(r: Reliance, s: State) {
    exists registryCapacity: nat, ledgerCapacity: nat, events: seq<Event> ::
      && HeedingRun(r, Init(registryCapacity, ledgerCapacity), events)
      && s == Run(Init(registryCapacity, ledgerCapacity), events)
  }

  ghost predicate Leads(s: State, t: State) {
    exists events: seq<Event> :: t == Run(s, events)
  }

  /** The same, within one life of the process. */
  ghost predicate LeadsWithoutCrash(s: State, t: State) {
    exists events: seq<Event> :: (forall i :: 0 <= i < |events| ==> !events[i].Crash?) && t == Run(s, events)
  }
}
