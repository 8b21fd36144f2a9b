/** The reservation discipline: over every run with a careful operator at most one submit or callback is in progress for
    a request id, and while it is, the registry holds the id in a state it can neither evict nor replace. */
module GatewayOwners {
  import opened Common
  import opened Requests
  import opened Gateway
  import L = Ledger
  import R = RequestRegistry

  function IdOf(p: Phase): string {
    p.record.requestId
  }

  /** The ids whose registry record is unfinished. */
  function Unfinished(r: R.Registry): set<string> {
    set id | id in r.records && !IsTerminal(r.records[id].state)
  }

  ghost predicate OwnersOk(threads: map<int, Phase>, flights: set<string>, held: set<string>) {
    && flights <= held
    && (forall t :: t in threads && Owns(threads[t]) ==> IdOf(threads[t]) in held && IdOf(threads[t]) !in flights)
    && (forall t, u :: t in threads && u in threads && t != u && Owns(threads[t]) && Owns(threads[u]) ==>
          IdOf(threads[t]) != IdOf(threads[u]))
  }

  /** No id is worked on while it is being resolved. */
  ghost predicate Apart(threads: map<int, Phase>, flights: set<string>) {
    && (forall t :: t in threads && Resolves(threads[t]) ==> IdOf(threads[t]) !in flights)
    && (forall t, u :: t in threads && u in threads && Resolves(threads[t]) && Owns(threads[u]) ==>
          IdOf(threads[t]) != IdOf(threads[u]))
  }

  ghost predicate Shapes(s: State) {
    && (forall id :: id in s.goals ==> s.goals[id].payload.requestId == id)
    && (forall t :: t in s.threads && s.threads[t].Arrived? ==> s.threads[t].record.state == Submitting)
  }

  ghost predicate Owners(s: State) {
    OwnersOk(s.threads, s.flights.Keys, Unfinished(s.registry)) && Shapes(s)
  }

  // How ownership may move. `held` grows to `more`, or loses the id that is given up.

  lemma Advance(threads: map<int, Phase>, flights: set<string>, held: set<string>, more: set<string>, t: int, p: Phase)
    requires OwnersOk(threads, flights, held) && t in threads && held <= more
    requires Owns(p) ==> Owns(threads[t]) && IdOf(p) == IdOf(threads[t])
    ensures OwnersOk(threads[t := p], flights, more)
  {
  }

  lemma Release(threads: map<int, Phase>, flights: set<string>, held: set<string>, rest: set<string>, t: int, p: Phase)
    requires OwnersOk(threads, flights, held) && t in threads && Owns(threads[t]) && !Owns(p)
    requires held - {IdOf(threads[t])} <= rest
    ensures OwnersOk(threads - {t}, flights, rest) && OwnersOk(threads[t := p], flights, rest)
  {
  }

  lemma Leave(threads: map<int, Phase>, flights: set<string>, held: set<string>, more: set<string>, t: int)
    requires OwnersOk(threads, flights, held) && t in threads && held <= more
    ensures OwnersOk(threads - {t}, flights, more)
  {
  }

  lemma Acquire(threads: map<int, Phase>, flights: set<string>, held: set<string>, more: set<string>, t: int, p: Phase)
    requires OwnersOk(threads, flights, held)
    requires Owns(p) ==> IdOf(p) !in held && IdOf(p) in more
    requires held <= more
    ensures OwnersOk(threads[t := p], flights, more)
  {
  }

  lemma Launch(threads: map<int, Phase>, flights: set<string>, held: set<string>, t: int, p: Phase)
    requires OwnersOk(threads, flights, held) && t in threads && Owns(threads[t]) && !Owns(p)
    ensures OwnersOk(threads[t := p], flights + {IdOf(threads[t])}, held)
  {
  }

  lemma Land(threads: map<int, Phase>, flights: set<string>, held: set<string>, rest: set<string>, id: string)
    requires OwnersOk(threads, flights, held) && id in flights
    requires held - {id} <= rest
    ensures OwnersOk(threads, flights - {id}, rest)
  {
  }

  lemma Transfer(threads: map<int, Phase>, flights: set<string>, held: set<string>, id: string, t: int, p: Phase)
    requires OwnersOk(threads, flights, held) && id in flights && t !in threads
    requires IdOf(p) == id
    ensures OwnersOk(threads[t := p], flights - {id}, held)
  {
  }

  /** An id nobody owns may be settled by anyone. */
  lemma Abandon(threads: map<int, Phase>, flights: set<string>, held: set<string>, rest: set<string>, id: string)
    requires OwnersOk(threads, flights, held) && id !in flights && held - {id} <= rest
    requires forall t :: t in threads && Owns(threads[t]) ==> IdOf(threads[t]) != id
    ensures OwnersOk(threads, flights, rest)
  {
  }

  // Registry operations on the unfinished ids

  lemma UnfinishedAfterUpdate(
      r: R.Registry, id: string, state: RequestState, outcome: uint8, errorCode: uint16, message: string)
    ensures var after := Unfinished(R.Update(r, id, state, outcome, errorCode, message));
            && Unfinished(r) - {id} <= after
            && (!IsTerminal(state) ==> Unfinished(r) <= after)
  {
  }

  lemma UnfinishedAfterErase(r: R.Registry, id: string)
    ensures Unfinished(r) - {id} <= Unfinished(R.Erase(r, id))
  {
  }

  lemma UnfinishedAfterInsert(r: R.Registry, capacity: nat, record: RequestRecord)
    requires record.state == Submitting
    ensures var (after, result) := R.Insert(r, capacity, record);
            result == R.Inserted ==>
              && Unfinished(r) <= Unfinished(after)
              && record.requestId !in Unfinished(r) && record.requestId in Unfinished(after)
  {
  }

  // One lemma per critical section

  lemma ReserveKeepsOwners(s: State, t: int)
    requires Owners(s) && t in s.threads && s.threads[t].Arrived?
    ensures Owners(ReserveStep(s, t))
  {
    var record := s.threads[t].record;
    var (registry, result) := R.Insert(s.registry, s.registryCapacity, record);
    UnfinishedAfterInsert(s.registry, s.registryCapacity, record);
    if result == R.Inserted {
      Acquire(s.threads, s.flights.Keys, Unfinished(s.registry), Unfinished(registry), t, Reserved(record));
    } else {
      Leave(s.threads, s.flights.Keys, Unfinished(s.registry), Unfinished(s.registry), t);
    }
  }

  lemma ForgetKeepsOwners(s: State, t: int)
    requires Owners(s) && t in s.threads && Owns(s.threads[t])
    ensures Owners(End(Forget(s, IdOf(s.threads[t])), t))
  {
    var next := End(Forget(s, IdOf(s.threads[t])), t);
    UnfinishedAfterErase(s.registry, IdOf(s.threads[t]));
    Release(s.threads, s.flights.Keys, Unfinished(s.registry), Unfinished(next.registry), t,
            Awaiting(s.threads[t].record));
  }

  lemma SettleKeepsOwners(s: State, t: int, state: RequestState, outcome: uint8, errorCode: uint16, p: Phase)
    requires Owners(s) && t in s.threads && Owns(s.threads[t]) && !Owns(p) && !p.Arrived?
    ensures var shown := Show(s, IdOf(s.threads[t]), state, outcome, errorCode);
            Owners(End(shown, t)) && Owners(Set(shown, t, p))
  {
    var shown := Show(s, IdOf(s.threads[t]), state, outcome, errorCode);
    UnfinishedAfterUpdate(s.registry, IdOf(s.threads[t]), state, outcome, errorCode, "");
    Release(s.threads, s.flights.Keys, Unfinished(s.registry), Unfinished(shown.registry), t, p);
  }

  lemma AdvanceKeepsOwners(s: State, t: int, p: Phase)
    requires Owners(s) && t in s.threads && !p.Arrived?
    requires Owns(p) ==> Owns(s.threads[t]) && IdOf(p) == IdOf(s.threads[t])
    ensures Owners(Set(s, t, p)) && Owners(End(s, t))
  {
    Advance(s.threads, s.flights.Keys, Unfinished(s.registry), Unfinished(s.registry), t, p);
    Leave(s.threads, s.flights.Keys, Unfinished(s.registry), Unfinished(s.registry), t);
  }

  lemma MarkKeepsOwners(s: State, id: string, state: RequestState, outcome: uint8, errorCode: uint16)
    requires Owners(s) && !IsTerminal(state)
    ensures Owners(Show(s, id, state, outcome, errorCode))
  {
    UnfinishedAfterUpdate(s.registry, id, state, outcome, errorCode, "");
  }

  /** Owners looks at the threads, flights, goals and registry only. */
  lemma FrameOwners(s: State, next: State)
    requires Owners(s)
    requires next.threads == s.threads && next.flights == s.flights && next.registry == s.registry
    requires forall id :: id in next.goals ==> next.goals[id].payload.requestId == id
    ensures Owners(next)
  {
  }

  lemma SweepStepKeepsOwners(s: State, t: int, nowNs: int, pruneOk: bool)
    requires Owners(s) && t in s.threads && s.threads[t].ReadAbsent?
    ensures Owners(SweepStep(s, t, nowNs, pruneOk))
  {
    var swept := s.(disk := Sweep(s.disk, L.AfterRetention(s.disk.rows, nowNs, pruneOk)));
    FrameOwners(s, swept);
    AdvanceKeepsOwners(swept, t, Swept(s.threads[t].record, nowNs));
    AdvanceKeepsOwners(swept, t, Counted(s.threads[t].record, nowNs));
  }

  lemma CountStepKeepsOwners(s: State, t: int, countOk: bool)
    requires Owners(s) && t in s.threads && s.threads[t].Swept?
    ensures Owners(CountStep(s, t, countOk))
  {
    AdvanceKeepsOwners(s, t, Counted(s.threads[t].record, s.threads[t].nowNs));
    AdvanceKeepsOwners(s, t, Dropping(s.threads[t].record));
  }

  lemma WriteStepKeepsOwners(s: State, t: int, putOk: bool)
    requires Owners(s) && t in s.threads && s.threads[t].Counted?
    ensures Owners(WriteStep(s, t, putOk))
  {
    var p := s.threads[t];
    var claimed := s.(disk := Claim(s.disk, L.Put(s.disk.rows, L.ClaimRow(p.record, p.nowNs), putOk).0,
                                    p.record.requestId));
    FrameOwners(s, claimed);
    AdvanceKeepsOwners(claimed, t, Claimed(p.record));
    AdvanceKeepsOwners(s, t, Dropping(p.record));
  }

  lemma AdmittedKeepsOwners(s: State, t: int)
    requires Owners(s) && t in s.threads && s.threads[t].Claimed?
    ensures var id, record := IdOf(s.threads[t]), s.threads[t].record;
            var goals := if id in s.goals then s.goals else s.goals[id := GoalEntry(record, false)];
            Owners(Set(s.(goals := goals), t, Sending(record)))
  {
    var id, record := IdOf(s.threads[t]), s.threads[t].record;
    var goals := if id in s.goals then s.goals else s.goals[id := GoalEntry(record, false)];
    FrameOwners(s, s.(goals := goals));
    AdvanceKeepsOwners(s.(goals := goals), t, Sending(record));
  }

  lemma IntakeKeepsOwners(s: State, t: int, serverReady: bool)
    requires Owners(s) && t in s.threads && s.threads[t].Claimed?
    ensures Owners(IntakeStep(s, t, serverReady))
  {
    var record := s.threads[t].record;
    if !AllowedWorkflow(record.workflowId) {
      SettleKeepsOwners(s, t, Rejected, 0, 400, Rejecting(record, 400));
    } else if !serverReady || s.stopping {
      SettleKeepsOwners(s, t, Rejected, 0, 503, Rejecting(record, 503));
    } else {
      AdmittedKeepsOwners(s, t);
    }
  }

  lemma SendKeepsOwners(s: State, t: int, ok: bool)
    requires Owners(s) && t in s.threads && s.threads[t].Sending?
    ensures Owners(SendStep(s, t, ok))
  {
    var record := s.threads[t].record;
    if ok {
      Launch(s.threads, s.flights.Keys, Unfinished(s.registry), t, Awaiting(record));
      assert s.flights[record.requestId := AwaitingResponse].Keys == s.flights.Keys + {record.requestId};
    } else {
      AdvanceKeepsOwners(s, t, SendThrew(record));
    }
  }

  lemma RecoverKeepsOwners(s: State, t: int)
    requires Owners(s) && t in s.threads && s.threads[t].SendThrew?
    ensures Owners(RecoverStep(s, t))
  {
    var record := s.threads[t].record;
    var erased := s.(goals := s.goals - {record.requestId});
    FrameOwners(s, erased);
    SettleKeepsOwners(erased, t, Rejected, 0, 503, Rejecting(record, 503));
  }

  lemma LogKeepsOwners(
      s: State, t: int, state: RequestState, outcome: uint8, errorCode: uint16, nowNs: int, ok: bool, p: Phase)
    requires Owners(s) && t in s.threads && !p.Arrived?
    requires Owns(p) ==> Owns(s.threads[t]) && IdOf(p) == IdOf(s.threads[t])
    ensures var logged := LogStep(s, t, state, outcome, errorCode, nowNs, ok);
            Owners(End(logged, t)) && Owners(Set(logged, t, p))
  {
    var logged := LogStep(s, t, state, outcome, errorCode, nowNs, ok);
    FrameOwners(s, logged);
    AdvanceKeepsOwners(logged, t, p);
  }

  lemma StopWaitingKeepsOwners(s: State, t: int, late: bool)
    requires Owners(s) && t in s.threads && s.threads[t].Awaiting?
    ensures Owners(StopWaitingStep(s, t, late))
  {
    var record := s.threads[t].record;
    MarkKeepsOwners(s, record.requestId, TimedOut, 0, 504);
    AdvanceKeepsOwners(s, t, Awaiting(record));
    AdvanceKeepsOwners(Show(s, record.requestId, TimedOut, 0, 504), t, Awaiting(record));
  }

  lemma AdmitKeepsOwners(s: State, e: Event)
    requires Owners(s) && IsAdmit(e)
    ensures Owners(AdmitStep(s, e))
  {
    hide OwnersOk, ReserveStep, AfterRead, SweepStep, CountStep, WriteStep;
    match e
    case Arrive(t, record) =>
      Acquire(s.threads, s.flights.Keys, Unfinished(s.registry), Unfinished(s.registry), t, Arrived(record));
    case Reserve(t) =>
      if t in s.threads && s.threads[t].Arrived? { ReserveKeepsOwners(s, t); }
    case CheckHistory(t, unused) =>
      if t in s.threads && s.threads[t].Reserved? {
        AdvanceKeepsOwners(s, t, if unused then Checked(s.threads[t].record) else Dropping(s.threads[t].record));
      }
    case ReadLedger(t, readOk) =>
      if t in s.threads && s.threads[t].Checked? {
        AdvanceKeepsOwners(s, t, AfterRead(s.disk.rows, s.threads[t].record, readOk));
      }
    case SweepLedger(t, nowNs, pruneOk) =>
      if t in s.threads && s.threads[t].ReadAbsent? { SweepStepKeepsOwners(s, t, nowNs, pruneOk); }
    case CountLedger(t, countOk) =>
      if t in s.threads && s.threads[t].Swept? { CountStepKeepsOwners(s, t, countOk); }
    case WriteLedger(t, putOk) =>
      if t in s.threads && s.threads[t].Counted? { WriteStepKeepsOwners(s, t, putOk); }
  }

  lemma DispatchKeepsOwners(s: State, e: Event)
    requires Owners(s) && IsDispatch(e)
    ensures Owners(DispatchStep(s, e))
  {
    hide Owners, IntakeStep, SendStep, RecoverStep, LogStep, StopWaitingStep, R.Update, R.Erase;
    match e
    case Answer(t) =>
      if t in s.threads && s.threads[t].Answering? {
        var p := s.threads[t];
        SettleKeepsOwners(s, t, p.state, p.outcome, p.errorCode, Awaiting(p.record));
      }
    case Drop(t) =>
      if t in s.threads && s.threads[t].Dropping? { ForgetKeepsOwners(s, t); }
    case Intake(t, serverReady) =>
      if t in s.threads && s.threads[t].Claimed? { IntakeKeepsOwners(s, t, serverReady); }
    case Send(t, ok) =>
      if t in s.threads && s.threads[t].Sending? { SendKeepsOwners(s, t, ok); }
    case RecoverSend(t) =>
      if t in s.threads && s.threads[t].SendThrew? { RecoverKeepsOwners(s, t); }
    case LogRejection(t, nowNs, databaseOk) =>
      if t in s.threads && s.threads[t].Rejecting? {
        LogKeepsOwners(s, t, Rejected, 0, s.threads[t].errorCode, nowNs, databaseOk, s.threads[t]);
      }
    case StopWaiting(t, late) =>
      if t in s.threads && s.threads[t].Awaiting? { StopWaitingKeepsOwners(s, t, late); }
  }

  lemma GoalAcceptedKeepsOwners(s: State, id: string, cancelRequested: bool)
    requires Owners(s) && id in s.flights
    ensures Owners(AcceptStep(s, id, cancelRequested))
  {
    var next := s.(flights := s.flights[id := AwaitingResult]);
    assert next.flights.Keys == s.flights.Keys;
    MarkKeepsOwners(next, id, if s.stopping || cancelRequested then Canceling else Running, 0, 0);
  }

  lemma GoalRefusedKeepsOwners(s: State, t: int, id: string)
    requires Owners(s) && id in s.flights && t !in s.threads
    ensures Owners(RefuseStep(s, t, id))
  {
    var held := Unfinished(s.registry);
    assert (s.flights - {id}).Keys == s.flights.Keys - {id};
    if id in s.goals {
      Transfer(s.threads, s.flights.Keys, held, id, t, Refused(s.goals[id].payload));
    }
    Land(s.threads, s.flights.Keys, held, held, id);
  }

  lemma JoinKeepsOwners(s: State, t: int, p: Phase)
    requires Owners(s) && t !in s.threads && !Owns(p) && !p.Arrived?
    ensures Owners(Set(s, t, p))
  {
    Acquire(s.threads, s.flights.Keys, Unfinished(s.registry), Unfinished(s.registry), t, p);
  }

  lemma LandedKeepsOwners(s: State, id: string)
    requires OwnersOk(s.threads, s.flights.Keys - {id}, Unfinished(s.registry) - {id}) && Shapes(s)
    ensures var landed := Landed(s, id);
            OwnersOk(landed.threads, landed.flights.Keys, Unfinished(landed.registry) - {id}) && Shapes(landed)
  {
    assert (s.flights - {id}).Keys == s.flights.Keys - {id};
  }

  lemma ShownKeepsOwners(s: State, id: string, state: RequestState, outcome: uint8, errorCode: uint16)
    requires OwnersOk(s.threads, s.flights.Keys, Unfinished(s.registry) - {id}) && Shapes(s)
    ensures Owners(Show(s, id, state, outcome, errorCode))
  {
    UnfinishedAfterUpdate(s.registry, id, state, outcome, errorCode, "");
  }

  lemma ShownResultKeepsOwners(s: State, id: string, state: RequestState, outcome: uint8, errorCode: uint16)
    requires Owners(s) && id in s.flights
    ensures Owners(Show(Landed(s, id), id, state, outcome, errorCode))
  {
    Land(s.threads, s.flights.Keys, Unfinished(s.registry), Unfinished(s.registry) - {id}, id);
    LandedKeepsOwners(s, id);
    ShownKeepsOwners(Landed(s, id), id, state, outcome, errorCode);
  }

  lemma ResultArrivedKeepsOwners(s: State, t: int, id: string, outcome: uint8, errorCode: uint16)
    requires Owners(s) && id in s.flights && t !in s.threads
    ensures Owners(ResultStep(s, t, id, outcome, errorCode))
  {
    var state := StateForOutcome(outcome);
    var shown := Show(Landed(s, id), id, state, outcome, errorCode);
    ShownResultKeepsOwners(s, id, state, outcome, errorCode);
    var record := if id in s.goals then s.goals[id].payload else NoRequest(id);
    JoinKeepsOwners(shown, t, Finishing(record, state, outcome, errorCode));
  }

  lemma CallbackKeepsOwners(s: State, e: Event)
    requires Owners(s) && IsCallback(e)
    ensures Owners(CallbackStep(s, e))
  {
    hide Owners, AcceptStep, RefuseStep, ResultStep, LogStep, R.Update;
    match e
    case GoalAccepted(id, cancelRequested) =>
      if id in s.flights { GoalAcceptedKeepsOwners(s, id, cancelRequested); }
    case GoalRefused(t, id) =>
      if id in s.flights && t !in s.threads { GoalRefusedKeepsOwners(s, t, id); }
    case LogRefusal(t, nowNs, databaseOk) =>
      if t in s.threads && s.threads[t].Refused? {
        LogKeepsOwners(s, t, Rejected, 0, 400, nowNs, databaseOk, RefusedLogged(s.threads[t].record));
      }
    case ShowRefusal(t) =>
      if t in s.threads && s.threads[t].RefusedLogged? {
        SettleKeepsOwners(s, t, Rejected, 0, 400, Awaiting(s.threads[t].record));
      }
    case ResultArrived(t, id, outcome, errorCode) =>
      if id in s.flights && t !in s.threads { ResultArrivedKeepsOwners(s, t, id, outcome, errorCode); }
    case LogResult(t, nowNs, databaseOk) =>
      if t in s.threads && s.threads[t].Finishing? {
        var p := s.threads[t];
        LogKeepsOwners(s, t, p.state, p.outcome, p.errorCode, nowNs, databaseOk, p);
      }
  }

  /** An id that is being resolved has no owner, so showing its resolution takes nothing from anyone. */
  lemma ResolveRegistryKeepsOwners(s: State, t: int)
    requires Owners(s) && Apart(s.threads, s.flights.Keys) && t in s.threads && s.threads[t].Resolving?
    ensures Owners(ShowResolution(s, t))
  {
    var id := IdOf(s.threads[t]);
    UnfinishedAfterUpdate(s.registry, id, s.threads[t].state, 0, 0, "");
    Abandon(s.threads, s.flights.Keys, Unfinished(s.registry), Unfinished(ShowResolution(s, t).registry), id);
    Leave(s.threads, s.flights.Keys, Unfinished(ShowResolution(s, t).registry),
          Unfinished(ShowResolution(s, t).registry), t);
  }

  lemma ResolveWriteKeepsOwners(s: State, t: int, nowNs: int, putOk: bool)
    requires Owners(s) && t in s.threads && s.threads[t].Decided?
    ensures Owners(ResolveWriteStep(s, t, nowNs, putOk))
  {
    var p := s.threads[t];
    var row := L.Row(IdOf(p), p.fingerprint, p.state, 0, 0, "", nowNs);
    var written := s.(disk := s.disk.(rows := L.Put(s.disk.rows, row, putOk).0));
    FrameOwners(s, written);
    AdvanceKeepsOwners(written, t, Resolving(p.record, p.state));
    AdvanceKeepsOwners(s, t, Resolving(p.record, p.state));
  }

  lemma OperatorKeepsOwners(s: State, e: Event)
    requires Owners(s) && Apart(s.threads, s.flights.Keys) && IsOperator(e)
    ensures Owners(OperatorStep(s, e))
  {
    hide Owners, Apart, ShowResolution, ResolveWriteStep, L.Put;
    match e
    case ResolveRead(t, id, state, readOk) =>
      if t !in s.threads && id in s.disk.rows {
        JoinKeepsOwners(s, t, Deciding(NoRequest(id), s.disk.rows[id].fingerprint, state));
      }
    case ResolveCheck(t, readOk) =>
      if t in s.threads && s.threads[t].Deciding? {
        AdvanceKeepsOwners(s, t, Decided(s.threads[t].record, s.threads[t].fingerprint, s.threads[t].state));
      }
    case ResolveWrite(t, nowNs, putOk) =>
      if t in s.threads && s.threads[t].Decided? {
        ResolveWriteKeepsOwners(s, t, nowNs, putOk);
      }
    case ResolveRegistry(t) =>
      if t in s.threads && s.threads[t].Resolving? { ResolveRegistryKeepsOwners(s, t); }
  }

  lemma ThrewKeepsOwners(s: State, id: string)
    requires Owners(s) && id in s.goals
    ensures Owners(CancelStep(s, CancelThrew(id)))
  {
    var failed := Mark(s, id, true);
    FrameOwners(s, failed);
    MarkKeepsOwners(failed, id, CancelFailed, 0, 500);
  }

  lemma CancelKeepsOwners(s: State, e: Event)
    requires Owners(s) && IsCancel(e)
    ensures Owners(CancelStep(s, e))
  {
    match e
    case MarkCanceling(id, outcome, errorCode) => MarkKeepsOwners(s, id, Canceling, outcome, errorCode);
    case CancelThrew(id) =>
      if id in s.goals { ThrewKeepsOwners(s, id); }
    case CancelRetried(id) =>
      if id in s.goals {
        FrameOwners(s, Mark(s, id, false));
      }
  }

  lemma ProcessKeepsOwners(s: State, e: Event)
    requires Owners(s)
    ensures Owners(ProcessStep(s, e))
  {
    if e.Crash? {
      assert ProcessStep(s, e).threads == map[];
    } else {
      FrameOwners(s, ProcessStep(s, e));
    }
  }

  lemma StepKeepsOwners(s: State, e: Event)
    requires Owners(s) && Apart(s.threads, s.flights.Keys)
    ensures Owners(Step(s, e))
  {
    hide Owners, Apart, AdmitStep, DispatchStep, CallbackStep, OperatorStep, CancelStep, ProcessStep;
    if IsAdmit(e) {
      AdmitKeepsOwners(s, e);
    } else if IsDispatch(e) {
      DispatchKeepsOwners(s, e);
    } else if IsCallback(e) {
      CallbackKeepsOwners(s, e);
    } else if IsOperator(e) {
      OperatorKeepsOwners(s, e);
    } else if IsCancel(e) {
      CancelKeepsOwners(s, e);
    } else {
      ProcessKeepsOwners(s, e);
    }
  }

  // Ids under resolution stay apart from ids at work

  lemma ApartAdvance(threads: map<int, Phase>, flights: set<string>, t: int, p: Phase)
    requires Apart(threads, flights) && t in threads
    requires Owns(p) ==> Owns(threads[t]) && IdOf(p) == IdOf(threads[t])
    requires Resolves(p) ==> Resolves(threads[t]) && IdOf(p) == IdOf(threads[t])
    ensures Apart(threads[t := p], flights) && Apart(threads - {t}, flights)
  {
  }

  lemma ApartJoin(threads: map<int, Phase>, flights: set<string>, t: int, p: Phase)
    requires Apart(threads, flights) && !Resolves(p)
    requires Owns(p) ==> forall u :: u in threads && Resolves(threads[u]) ==> IdOf(threads[u]) != IdOf(p)
    ensures Apart(threads[t := p], flights)
  {
  }

  lemma ApartResolve(threads: map<int, Phase>, flights: set<string>, t: int, p: Phase)
    requires Apart(threads, flights) && t !in threads && !Owns(p) && IdOf(p) !in flights
    requires forall u :: u in threads && Owns(threads[u]) ==> IdOf(threads[u]) != IdOf(p)
    ensures Apart(threads[t := p], flights)
  {
  }

  lemma ApartLaunch(threads: map<int, Phase>, flights: set<string>, t: int)
    requires Apart(threads, flights) && t in threads && Owns(threads[t])
    ensures Apart(threads, flights + {IdOf(threads[t])})
  {
  }

  lemma ApartLand(threads: map<int, Phase>, flights: set<string>, id: string)
    requires Apart(threads, flights) && id in flights
    ensures Apart(threads, flights - {id})
    ensures forall u :: u in threads && Resolves(threads[u]) ==> IdOf(threads[u]) != id
  {
  }

  /** A step that moves thread `t` to `p`, or ends it, and leaves the goals in flight alone. */
  ghost predicate Moves(s: State, next: State, t: int, p: Phase) {
    (next.threads == s.threads[t := p] || next.threads == s.threads - {t}) && next.flights == s.flights
  }

  lemma MoveKeepsApart(s: State, next: State, t: int, p: Phase)
    requires Apart(s.threads, s.flights.Keys) && t in s.threads && Moves(s, next, t, p)
    requires Owns(p) ==> Owns(s.threads[t]) && IdOf(p) == IdOf(s.threads[t])
    requires Resolves(p) ==> Resolves(s.threads[t]) && IdOf(p) == IdOf(s.threads[t])
    ensures Apart(next.threads, next.flights.Keys)
  {
    ApartAdvance(s.threads, s.flights.Keys, t, p);
  }

  lemma ReserveKeepsApart(s: State, t: int)
    requires Apart(s.threads, s.flights.Keys) && t in s.threads && Unresolved(s, IdOf(s.threads[t]))
    ensures Apart(ReserveStep(s, t).threads, ReserveStep(s, t).flights.Keys)
  {
    ApartJoin(s.threads, s.flights.Keys, t, Reserved(s.threads[t].record));
    ApartAdvance(s.threads, s.flights.Keys, t, Awaiting(s.threads[t].record));
  }

  lemma ReadingKeepsApart(s: State, e: Event)
    requires Apart(s.threads, s.flights.Keys) && Heeds(Full, s, e)
    requires e.Arrive? || e.Reserve? || e.CheckHistory? || e.ReadLedger?
    ensures var next := AdmitStep(s, e); Apart(next.threads, next.flights.Keys)
  {
    hide Apart, ReserveStep;
    match e
    case Arrive(t, record) => ApartJoin(s.threads, s.flights.Keys, t, Arrived(record));
    case Reserve(t) =>
      if t in s.threads { ReserveKeepsApart(s, t); }
    case CheckHistory(t, unused) =>
      if t in s.threads && s.threads[t].Reserved? {
        ApartAdvance(s.threads, s.flights.Keys, t,
                     if unused then Checked(s.threads[t].record) else Dropping(s.threads[t].record));
      }
    case ReadLedger(t, readOk) =>
      if t in s.threads && s.threads[t].Checked? {
        ApartAdvance(s.threads, s.flights.Keys, t, AfterRead(s.disk.rows, s.threads[t].record, readOk));
      }
  }

  lemma ClaimingKeepsApart(s: State, e: Event)
    requires Apart(s.threads, s.flights.Keys) && (e.SweepLedger? || e.CountLedger? || e.WriteLedger?)
    ensures var next := AdmitStep(s, e); Apart(next.threads, next.flights.Keys)
  {
    hide Apart, L.HasRoom, L.Put, L.AfterRetention;
    match e
    case SweepLedger(t, nowNs, pruneOk) =>
      if t in s.threads && s.threads[t].ReadAbsent? {
        ApartAdvance(s.threads, s.flights.Keys, t, Swept(s.threads[t].record, nowNs));
        ApartAdvance(s.threads, s.flights.Keys, t, Counted(s.threads[t].record, nowNs));
      }
    case CountLedger(t, countOk) =>
      if t in s.threads && s.threads[t].Swept? {
        ApartAdvance(s.threads, s.flights.Keys, t, Counted(s.threads[t].record, s.threads[t].nowNs));
        ApartAdvance(s.threads, s.flights.Keys, t, Dropping(s.threads[t].record));
      }
    case WriteLedger(t, putOk) =>
      if t in s.threads && s.threads[t].Counted? {
        ApartAdvance(s.threads, s.flights.Keys, t, Claimed(s.threads[t].record));
        ApartAdvance(s.threads, s.flights.Keys, t, Dropping(s.threads[t].record));
      }
  }

  lemma IntakeKeepsApart(s: State, t: int, serverReady: bool)
    requires Apart(s.threads, s.flights.Keys) && t in s.threads && s.threads[t].Claimed?
    ensures Apart(IntakeStep(s, t, serverReady).threads, IntakeStep(s, t, serverReady).flights.Keys)
  {
    hide Apart, R.Update;
    var next := IntakeStep(s, t, serverReady);
    MoveKeepsApart(s, next, t, next.threads[t]);
  }

  lemma SendKeepsApart(s: State, t: int, ok: bool)
    requires Apart(s.threads, s.flights.Keys) && t in s.threads && s.threads[t].Sending?
    ensures Apart(SendStep(s, t, ok).threads, SendStep(s, t, ok).flights.Keys)
  {
    var p := s.threads[t];
    if ok {
      ApartLaunch(s.threads, s.flights.Keys, t);
      ApartAdvance(s.threads, s.flights.Keys + {IdOf(p)}, t, Awaiting(p.record));
      assert s.flights[IdOf(p) := AwaitingResponse].Keys == s.flights.Keys + {IdOf(p)};
    } else {
      ApartAdvance(s.threads, s.flights.Keys, t, SendThrew(p.record));
    }
  }

  lemma EndingKeepsApart(s: State, e: Event)
    requires Apart(s.threads, s.flights.Keys)
    requires e.Answer? || e.Drop? || e.LogRejection? || e.StopWaiting?
    ensures var next := DispatchStep(s, e); Apart(next.threads, next.flights.Keys)
  {
    hide Apart, L.Complete, R.Update, R.Erase;
    if e.t in s.threads {
      ApartAdvance(s.threads, s.flights.Keys, e.t, Awaiting(s.threads[e.t].record));
    }
  }

  lemma DispatchKeepsApart(s: State, e: Event)
    requires Apart(s.threads, s.flights.Keys) && IsDispatch(e)
    ensures var next := DispatchStep(s, e); Apart(next.threads, next.flights.Keys)
  {
    hide Apart, IntakeStep, SendStep, LogStep, StopWaitingStep, R.Update, R.Erase;
    match e
    case Intake(t, serverReady) =>
      if t in s.threads && s.threads[t].Claimed? { IntakeKeepsApart(s, t, serverReady); }
    case Send(t, ok) =>
      if t in s.threads && s.threads[t].Sending? { SendKeepsApart(s, t, ok); }
    case RecoverSend(t) =>
      if t in s.threads && s.threads[t].SendThrew? {
        MoveKeepsApart(s, RecoverStep(s, t), t, Rejecting(s.threads[t].record, 503));
      }
    case _ => EndingKeepsApart(s, e);
  }

  /** A landed goal's id was in flight, so nobody resolves it and its callback may take it over. */
  lemma LandingKeepsApart(s: State, next: State, id: string, t: int, p: Phase)
    requires Apart(s.threads, s.flights.Keys) && id in s.flights && !Resolves(p)
    requires Owns(p) ==> IdOf(p) == id
    requires next.threads == s.threads || next.threads == s.threads[t := p]
    requires next.flights == s.flights - {id}
    ensures Apart(next.threads, next.flights.Keys)
  {
    ApartLand(s.threads, s.flights.Keys, id);
    assert next.flights.Keys == s.flights.Keys - {id};
    ApartJoin(s.threads, s.flights.Keys - {id}, t, p);
  }

  lemma RefuseKeepsApart(s: State, t: int, id: string)
    requires Apart(s.threads, s.flights.Keys) && Shapes(s) && id in s.flights
    ensures Apart(RefuseStep(s, t, id).threads, RefuseStep(s, t, id).flights.Keys)
  {
    LandingKeepsApart(s, RefuseStep(s, t, id), id, t,
                      if id in s.goals then Refused(s.goals[id].payload) else Awaiting(NoRequest(id)));
  }

  lemma ResultKeepsApart(s: State, t: int, id: string, outcome: uint8, errorCode: uint16)
    requires Apart(s.threads, s.flights.Keys) && id in s.flights
    ensures var next := ResultStep(s, t, id, outcome, errorCode); Apart(next.threads, next.flights.Keys)
  {
    var record := if id in s.goals then s.goals[id].payload else NoRequest(id);
    LandingKeepsApart(s, ResultStep(s, t, id, outcome, errorCode), id, t,
                      Finishing(record, StateForOutcome(outcome), outcome, errorCode));
  }

  lemma CallbackKeepsApart(s: State, e: Event)
    requires Apart(s.threads, s.flights.Keys) && Shapes(s) && IsCallback(e)
    ensures var next := CallbackStep(s, e); Apart(next.threads, next.flights.Keys)
  {
    hide Apart, RefuseStep, ResultStep, L.Complete, R.Update;
    match e
    case GoalAccepted(id, cancelRequested) =>
      if id in s.flights { assert AcceptStep(s, id, cancelRequested).flights.Keys == s.flights.Keys; }
    case GoalRefused(t, id) =>
      if id in s.flights { RefuseKeepsApart(s, t, id); }
    case LogRefusal(t, nowNs, databaseOk) =>
      if t in s.threads && s.threads[t].Refused? {
        ApartAdvance(s.threads, s.flights.Keys, t, RefusedLogged(s.threads[t].record));
      }
    case ShowRefusal(t) =>
      if t in s.threads { ApartAdvance(s.threads, s.flights.Keys, t, Awaiting(s.threads[t].record)); }
    case ResultArrived(t, id, outcome, errorCode) =>
      if id in s.flights { ResultKeepsApart(s, t, id, outcome, errorCode); }
    case LogResult(t, nowNs, databaseOk) =>
      if t in s.threads { ApartAdvance(s.threads, s.flights.Keys, t, Awaiting(s.threads[t].record)); }
  }

  lemma OperatorKeepsApart(s: State, e: Event)
    requires Apart(s.threads, s.flights.Keys) && IsOperator(e) && Heeds(Full, s, e)
    ensures var next := OperatorStep(s, e); Apart(next.threads, next.flights.Keys)
  {
    hide Apart, L.Put, R.Update;
    match e
    case ResolveRead(t, id, state, readOk) =>
      if t !in s.threads && id in s.disk.rows {
        ApartResolve(s.threads, s.flights.Keys, t, Deciding(NoRequest(id), s.disk.rows[id].fingerprint, state));
      }
    case ResolveCheck(t, readOk) =>
      if t in s.threads && s.threads[t].Deciding? {
        ApartAdvance(s.threads, s.flights.Keys, t,
                     Decided(s.threads[t].record, s.threads[t].fingerprint, s.threads[t].state));
      }
    case ResolveWrite(t, nowNs, putOk) =>
      if t in s.threads && s.threads[t].Decided? {
        ApartAdvance(s.threads, s.flights.Keys, t, Resolving(s.threads[t].record, s.threads[t].state));
      }
    case ResolveRegistry(t) =>
      if t in s.threads { ApartAdvance(s.threads, s.flights.Keys, t, Awaiting(s.threads[t].record)); }
  }

  lemma CancelFrame(s: State, e: Event)
    ensures var next := CancelStep(s, e);
            && next.threads == s.threads && next.flights == s.flights && next.disk == s.disk
            && next.stopping == s.stopping && next.drained == s.drained && next.goals.Keys == s.goals.Keys
  {
    hide R.Update;
  }

  lemma ProcessKeepsApart(s: State, e: Event)
    requires Apart(s.threads, s.flights.Keys)
    ensures var next := ProcessStep(s, e); Apart(next.threads, next.flights.Keys)
  {
  }

  lemma StepKeepsApart(s: State, e: Event)
    requires Apart(s.threads, s.flights.Keys) && Shapes(s) && Heeds(Full, s, e)
    ensures var next := Step(s, e); Apart(next.threads, next.flights.Keys)
  {
    hide Apart, Shapes, Heeds, AdmitStep, DispatchStep, CallbackStep, OperatorStep, CancelStep, ProcessStep;
    if e.SweepLedger? || e.CountLedger? || e.WriteLedger? {
      ClaimingKeepsApart(s, e);
    } else if IsAdmit(e) {
      ReadingKeepsApart(s, e);
    } else if IsDispatch(e) {
      DispatchKeepsApart(s, e);
    } else if IsCallback(e) {
      CallbackKeepsApart(s, e);
    } else if IsOperator(e) {
      OperatorKeepsApart(s, e);
    } else if IsCancel(e) {
      CancelFrame(s, e);
    } else {
      ProcessKeepsApart(s, e);
    }
  }
}
