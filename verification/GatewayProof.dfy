/** At-most-once dispatch, immutable identity and shutdown drain over every run of the gateway machine. */
module GatewayProof {
  import opened Common
  import opened Requests
  import opened Gateway
  import opened GatewayOwners
  import L = Ledger
  import R = RequestRegistry

  predicate Dispatching(p: Phase) {
    p.Claimed? || p.Sending?
  }

  /** The thread has read no row and not yet written its own. */
  predicate Unclaimed(p: Phase) {
    p.ReadAbsent? || p.Swept? || p.Counted?
  }

  /** No id is claimed more often than its row was pruned, plus once while the row exists; a thread that read no row
      has that one claim left. No id is dispatched more often than it is claimed; a thread about to dispatch has a
      claim of its own left. */
  ghost predicate Bounded(disk: Disk, threads: map<int, Phase>) {
    && (forall id :: disk.claims[id] <= disk.prunes[id] + if id in disk.rows then 1 else 0)
    && (forall t :: t in threads && Unclaimed(threads[t]) ==>
          disk.claims[IdOf(threads[t])] <= disk.prunes[IdOf(threads[t])])
    && (forall id :: disk.dispatches[id] <= disk.claims[id])
    && (forall t :: t in threads && Dispatching(threads[t]) ==>
          disk.dispatches[IdOf(threads[t])] < disk.claims[IdOf(threads[t])])
  }

  ghost predicate Drained(s: State) {
    s.drained ==> s.stopping && s.goals == map[]
  }

  ghost predicate Inv(s: State) {
    Owners(s) && Apart(s.threads, s.flights.Keys) && Bounded(s.disk, s.threads)
  }

  /** A thread may enter `p` if it only goes on: it reads no row, or keeps what it had. */
  ghost predicate Harmless(disk: Disk, threads: map<int, Phase>, t: int, p: Phase) {
    && (Unclaimed(p) ==>
          || IdOf(p) !in disk.rows
          || (t in threads && Unclaimed(threads[t]) && IdOf(threads[t]) == IdOf(p)))
    && (Dispatching(p) ==> t in threads && Dispatching(threads[t]) && IdOf(threads[t]) == IdOf(p))
  }

  lemma MoveKeepsBounded(disk: Disk, threads: map<int, Phase>, t: int, p: Phase)
    requires Bounded(disk, threads) && Harmless(disk, threads, t, p)
    ensures Bounded(disk, threads[t := p]) && Bounded(disk, threads - {t})
  {
    if Unclaimed(p) {
      assert disk.claims[IdOf(p)] <= disk.prunes[IdOf(p)];
    }
  }

  lemma RowsGrowKeepsBounded(disk: Disk, threads: map<int, Phase>, rows: L.Table)
    requires Bounded(disk, threads) && disk.rows.Keys <= rows.Keys
    ensures Bounded(disk.(rows := rows), threads)
  {
  }

  /** Retention counts every row it removes. */
  lemma SweepKeepsBounded(disk: Disk, threads: map<int, Phase>, kept: L.Table)
    requires Bounded(disk, threads) && kept.Keys <= disk.rows.Keys
    ensures Bounded(Sweep(disk, kept), threads)
  {
    var removed := disk.rows.Keys - kept.Keys;
    forall id ensures multiset(removed)[id] == if id in removed then 1 else 0 {
    }
  }

  lemma OnlyOwner(threads: map<int, Phase>, flights: set<string>, held: set<string>, t: int)
    requires OwnersOk(threads, flights, held) && t in threads && Owns(threads[t])
    ensures forall u :: u in threads && u != t && Owns(threads[u]) ==> IdOf(threads[u]) != IdOf(threads[t])
  {
  }

  /** The claim itself: the writer is the only thread between a read and a write of this id, so the claim it records
      is the one its read left open. */
  lemma ClaimKeepsBounded(
      disk: Disk, threads: map<int, Phase>, flights: set<string>, held: set<string>, t: int, rows: L.Table)
    requires Bounded(disk, threads) && OwnersOk(threads, flights, held)
    requires t in threads && threads[t].Counted?
    requires rows.Keys == disk.rows.Keys + {IdOf(threads[t])}
    ensures Bounded(Claim(disk, rows, IdOf(threads[t])), threads[t := Claimed(threads[t].record)])
  {
    hide OwnersOk;
    OnlyOwner(threads, flights, held, t);
    var id := IdOf(threads[t]);
    var after := Claim(disk, rows, id);
    assert after.claims[id] == disk.claims[id] + 1 && after.dispatches == disk.dispatches;
    assert forall other :: other != id ==> after.claims[other] == disk.claims[other];
    assert after.prunes == disk.prunes;
  }

  /** The dispatch itself: no other thread holds a claim of this id. */
  lemma DispatchKeepsBounded(disk: Disk, threads: map<int, Phase>, flights: set<string>, held: set<string>, t: int)
    requires Bounded(disk, threads) && OwnersOk(threads, flights, held)
    requires t in threads && threads[t].Sending?
    ensures Bounded(disk.(dispatches := disk.dispatches + multiset{IdOf(threads[t])}),
                    threads[t := Awaiting(threads[t].record)])
  {
    var id := IdOf(threads[t]);
    assert forall u :: u in threads && u != t && Dispatching(threads[u]) ==> IdOf(threads[u]) != id;
  }

  // One lemma per event that writes the disk

  lemma SweepStepKeepsBounded(s: State, t: int, nowNs: int, pruneOk: bool)
    requires Bounded(s.disk, s.threads) && t in s.threads && s.threads[t].ReadAbsent?
    ensures Bounded(SweepStep(s, t, nowNs, pruneOk).disk, SweepStep(s, t, nowNs, pruneOk).threads)
  {
    var kept := L.AfterRetention(s.disk.rows, nowNs, pruneOk);
    SweepKeepsBounded(s.disk, s.threads, kept);
    MoveKeepsBounded(Sweep(s.disk, kept), s.threads, t, Swept(s.threads[t].record, nowNs));
    MoveKeepsBounded(Sweep(s.disk, kept), s.threads, t, Counted(s.threads[t].record, nowNs));
  }

  lemma CountStepKeepsBounded(s: State, t: int, countOk: bool)
    requires Bounded(s.disk, s.threads) && t in s.threads && s.threads[t].Swept?
    ensures Bounded(CountStep(s, t, countOk).disk, CountStep(s, t, countOk).threads)
  {
    MoveKeepsBounded(s.disk, s.threads, t, Counted(s.threads[t].record, s.threads[t].nowNs));
    MoveKeepsBounded(s.disk, s.threads, t, Dropping(s.threads[t].record));
  }

  lemma WriteStepKeepsBounded(s: State, t: int, putOk: bool)
    requires Owners(s) && Bounded(s.disk, s.threads) && t in s.threads && s.threads[t].Counted?
    ensures Bounded(WriteStep(s, t, putOk).disk, WriteStep(s, t, putOk).threads)
  {
    var p := s.threads[t];
    var (rows, ok) := L.Put(s.disk.rows, L.ClaimRow(p.record, p.nowNs), putOk);
    if ok {
      assert rows.Keys == s.disk.rows.Keys + {IdOf(p)};
      ClaimKeepsBounded(s.disk, s.threads, s.flights.Keys, Unfinished(s.registry), t, rows);
    } else {
      MoveKeepsBounded(s.disk, s.threads, t, Dropping(p.record));
    }
  }

  lemma SendKeepsBounded(s: State, t: int, ok: bool)
    requires Owners(s) && Bounded(s.disk, s.threads) && t in s.threads && s.threads[t].Sending?
    ensures Bounded(SendStep(s, t, ok).disk, SendStep(s, t, ok).threads)
  {
    if ok {
      DispatchKeepsBounded(s.disk, s.threads, s.flights.Keys, Unfinished(s.registry), t);
    } else {
      MoveKeepsBounded(s.disk, s.threads, t, SendThrew(s.threads[t].record));
    }
  }

  lemma LogKeepsBounded(
      s: State, t: int, state: RequestState, outcome: uint8, errorCode: uint16, nowNs: int, ok: bool, p: Phase)
    requires Bounded(s.disk, s.threads) && t in s.threads && !Unclaimed(p) && !Dispatching(p)
    ensures var disk := LogStep(s, t, state, outcome, errorCode, nowNs, ok).disk;
            Bounded(disk, s.threads[t := p]) && Bounded(disk, s.threads - {t})
  {
    var logged := LogStep(s, t, state, outcome, errorCode, nowNs, ok);
    RowsGrowKeepsBounded(s.disk, s.threads, logged.disk.rows);
    MoveKeepsBounded(logged.disk, s.threads, t, p);
  }

  lemma ResolveWriteKeepsBounded(s: State, t: int, nowNs: int, putOk: bool)
    requires Bounded(s.disk, s.threads) && t in s.threads && s.threads[t].Decided?
    ensures Bounded(ResolveWriteStep(s, t, nowNs, putOk).disk, ResolveWriteStep(s, t, nowNs, putOk).threads)
  {
    var p := s.threads[t];
    var rows := L.Put(s.disk.rows, L.Row(IdOf(p), p.fingerprint, p.state, 0, 0, "", nowNs), putOk).0;
    assert s.disk.rows.Keys <= rows.Keys;
    RowsGrowKeepsBounded(s.disk, s.threads, rows);
    MoveKeepsBounded(s.disk.(rows := rows), s.threads, t, Resolving(p.record, p.state));
    MoveKeepsBounded(s.disk, s.threads, t, Resolving(p.record, p.state));
  }

  // The other events move one thread

  lemma ReserveKeepsBounded(s: State, t: int)
    requires Bounded(s.disk, s.threads) && t in s.threads
    ensures Bounded(ReserveStep(s, t).disk, ReserveStep(s, t).threads)
  {
    MoveKeepsBounded(s.disk, s.threads, t, Reserved(s.threads[t].record));
  }

  lemma IntakeKeepsBounded(s: State, t: int, serverReady: bool)
    requires Bounded(s.disk, s.threads) && t in s.threads && s.threads[t].Claimed?
    ensures Bounded(IntakeStep(s, t, serverReady).disk, IntakeStep(s, t, serverReady).threads)
  {
    var record := s.threads[t].record;
    MoveKeepsBounded(s.disk, s.threads, t, Sending(record));
    MoveKeepsBounded(s.disk, s.threads, t, Rejecting(record, 400));
    MoveKeepsBounded(s.disk, s.threads, t, Rejecting(record, 503));
  }

  lemma ReadKeepsBounded(s: State, e: Event)
    requires Bounded(s.disk, s.threads)
    requires e.Arrive? || e.Reserve? || e.CheckHistory? || e.ReadLedger?
    ensures var next := AdmitStep(s, e); Bounded(next.disk, next.threads)
  {
    hide Bounded, ReserveStep;
    match e
    case Arrive(t, record) => MoveKeepsBounded(s.disk, s.threads, t, Arrived(record));
    case Reserve(t) =>
      if t in s.threads { ReserveKeepsBounded(s, t); }
    case CheckHistory(t, unused) =>
      if t in s.threads {
        MoveKeepsBounded(s.disk, s.threads, t,
                         if unused then Checked(s.threads[t].record) else Dropping(s.threads[t].record));
      }
    case ReadLedger(t, readOk) =>
      if t in s.threads {
        MoveKeepsBounded(s.disk, s.threads, t, AfterRead(s.disk.rows, s.threads[t].record, readOk));
      }
  }

  lemma ClaimingKeepsBounded(s: State, e: Event)
    requires Owners(s) && Bounded(s.disk, s.threads)
    requires e.SweepLedger? || e.CountLedger? || e.WriteLedger?
    ensures var next := AdmitStep(s, e); Bounded(next.disk, next.threads)
  {
    hide Bounded, Owners, SweepStep, CountStep, WriteStep;
    match e
    case SweepLedger(t, nowNs, pruneOk) =>
      if t in s.threads && s.threads[t].ReadAbsent? { SweepStepKeepsBounded(s, t, nowNs, pruneOk); }
    case CountLedger(t, countOk) =>
      if t in s.threads && s.threads[t].Swept? {
        CountStepKeepsBounded(s, t, countOk);
      }
    case WriteLedger(t, putOk) =>
      if t in s.threads && s.threads[t].Counted? { WriteStepKeepsBounded(s, t, putOk); }
  }

  lemma DispatchEventKeepsBounded(s: State, e: Event)
    requires Owners(s) && Bounded(s.disk, s.threads) && IsDispatch(e)
    ensures var next := DispatchStep(s, e); Bounded(next.disk, next.threads)
  {
    hide Bounded, Owners, IntakeStep, SendStep, L.Complete, R.Update, R.Erase;
    match e
    case Answer(t) => MoveKeepsBounded(s.disk, s.threads, t, Awaiting(NoRequest("")));
    case Drop(t) => MoveKeepsBounded(s.disk, s.threads, t, Awaiting(NoRequest("")));
    case Intake(t, serverReady) =>
      if t in s.threads && s.threads[t].Claimed? { IntakeKeepsBounded(s, t, serverReady); }
    case Send(t, ok) =>
      if t in s.threads && s.threads[t].Sending? { SendKeepsBounded(s, t, ok); }
    case RecoverSend(t) =>
      if t in s.threads { MoveKeepsBounded(s.disk, s.threads, t, Rejecting(s.threads[t].record, 503)); }
    case LogRejection(t, nowNs, databaseOk) =>
      if t in s.threads && s.threads[t].Rejecting? {
        LogKeepsBounded(s, t, Rejected, 0, s.threads[t].errorCode, nowNs, databaseOk, s.threads[t]);
      }
    case StopWaiting(t, late) => MoveKeepsBounded(s.disk, s.threads, t, Awaiting(NoRequest("")));
  }

  lemma RefuseKeepsBounded(s: State, t: int, id: string)
    requires Bounded(s.disk, s.threads)
    ensures Bounded(RefuseStep(s, t, id).disk, RefuseStep(s, t, id).threads)
  {
    if id in s.goals {
      MoveKeepsBounded(s.disk, s.threads, t, Refused(s.goals[id].payload));
    }
  }

  lemma ResultKeepsBounded(s: State, t: int, id: string, outcome: uint8, errorCode: uint16)
    requires Bounded(s.disk, s.threads)
    ensures var next := ResultStep(s, t, id, outcome, errorCode); Bounded(next.disk, next.threads)
  {
    if id in s.goals {
      MoveKeepsBounded(
        s.disk, s.threads, t, Finishing(s.goals[id].payload, StateForOutcome(outcome), outcome, errorCode));
    }
  }

  lemma CallbackKeepsBounded(s: State, e: Event)
    requires Bounded(s.disk, s.threads) && IsCallback(e)
    ensures var next := CallbackStep(s, e); Bounded(next.disk, next.threads)
  {
    hide Bounded, RefuseStep, ResultStep, L.Complete, R.Update;
    match e
    case GoalAccepted(id, cancelRequested) =>
    case GoalRefused(t, id) => RefuseKeepsBounded(s, t, id);
    case LogRefusal(t, nowNs, databaseOk) =>
      if t in s.threads && s.threads[t].Refused? {
        LogKeepsBounded(s, t, Rejected, 0, 400, nowNs, databaseOk, RefusedLogged(s.threads[t].record));
      }
    case ShowRefusal(t) => MoveKeepsBounded(s.disk, s.threads, t, Awaiting(NoRequest("")));
    case ResultArrived(t, id, outcome, errorCode) =>
      ResultKeepsBounded(s, t, id, outcome, errorCode);
    case LogResult(t, nowNs, databaseOk) =>
      if t in s.threads && s.threads[t].Finishing? {
        var p := s.threads[t];
        LogKeepsBounded(s, t, p.state, p.outcome, p.errorCode, nowNs, databaseOk, p);
      }
  }

  lemma OperatorKeepsBounded(s: State, e: Event)
    requires Bounded(s.disk, s.threads) && IsOperator(e)
    ensures var next := OperatorStep(s, e); Bounded(next.disk, next.threads)
  {
    hide Bounded, ResolveWriteStep, R.Update;
    match e
    case ResolveRead(t, id, state, readOk) =>
      if id in s.disk.rows {
        MoveKeepsBounded(s.disk, s.threads, t, Deciding(NoRequest(id), s.disk.rows[id].fingerprint, state));
      }
    case ResolveCheck(t, readOk) =>
      if t in s.threads && s.threads[t].Deciding? {
        var p := s.threads[t];
        MoveKeepsBounded(s.disk, s.threads, t, Decided(p.record, p.fingerprint, p.state));
      }
    case ResolveWrite(t, nowNs, putOk) =>
      if t in s.threads && s.threads[t].Decided? { ResolveWriteKeepsBounded(s, t, nowNs, putOk); }
    case ResolveRegistry(t) => MoveKeepsBounded(s.disk, s.threads, t, Awaiting(NoRequest("")));
  }

  lemma ProcessKeepsBounded(s: State, e: Event)
    requires Bounded(s.disk, s.threads)
    ensures var next := ProcessStep(s, e); Bounded(next.disk, next.threads)
  {
    if e.PruneLedger? {
      SweepKeepsBounded(s.disk, s.threads, L.Prune(s.disk.rows, L.HorizonStart(e.nowNs)));
    }
  }

  // Shutdown

  /** cancel_active returns normally exactly if intake is stopped and no goal is pending. */
  lemma DrainedExactlyWhen(s: State)
    ensures Step(s, CancelActiveReturns).drained <==> s.drained || (s.stopping && s.goals == map[])
    ensures Step(s, StopAccepting) == s.(stopping := true)
  {
    if s.goals == map[] {
      assert forall id :: id !in s.goals;
    } else {
      var id :| id in s.goals;
    }
  }

  /** A retention pass removes what the ledger's retention removes, and every removed row is counted once. */
  lemma RetentionIsCounted(s: State, nowNs: int)
    ensures var next := Step(s, PruneLedger(nowNs));
            && next.disk.rows == L.Prune(s.disk.rows, nowNs - 86_400_000_000_000)
            && (forall id :: next.disk.prunes[id]
                             == s.disk.prunes[id] + if id in s.disk.rows && id !in next.disk.rows then 1 else 0)
            && next == s.(disk := s.disk.(rows := next.disk.rows, prunes := next.disk.prunes))
  {
  }

  /** cancel_active returns normally only with no goal pending. */
  lemma SuccessfulCancelActiveMeansEmpty(s: State)
    requires CancelActiveSucceeds(s)
    ensures s.stopping && s.goals == map[]
  {
    assert forall id :: id !in s.goals;
  }

  ghost predicate AddsNoGoal(s: State, next: State) {
    next.stopping == s.stopping && next.drained == s.drained && next.goals.Keys <= s.goals.Keys
  }

  lemma AdmitAddsNoGoal(s: State, e: Event)
    requires IsAdmit(e)
    ensures AddsNoGoal(s, AdmitStep(s, e))
  {
  }

  /** Goals are added in one place only, which looks at `stopping` in the same critical section. */
  lemma DispatchWhileStoppingAddsNoGoal(s: State, e: Event)
    requires IsDispatch(e)
    ensures DispatchStep(s, e).drained == s.drained && DispatchStep(s, e).stopping == s.stopping
    ensures s.stopping ==> AddsNoGoal(s, DispatchStep(s, e))
  {
  }

  lemma OperatorAddsNoGoal(s: State, e: Event)
    requires IsOperator(e)
    ensures AddsNoGoal(s, OperatorStep(s, e))
  {
  }

  lemma CallbackAddsNoGoal(s: State, e: Event)
    requires IsCallback(e)
    ensures AddsNoGoal(s, CallbackStep(s, e))
  {
  }

  lemma ProcessAddsNoGoal(s: State, e: Event)
    requires !e.Crash?
    ensures var next := ProcessStep(s, e);
            && (s.stopping ==> next.stopping)
            && (next.drained ==> s.drained || CancelActiveSucceeds(s))
            && next.goals.Keys <= s.goals.Keys
  {
  }

  lemma StepKeepsDrained(s: State, e: Event)
    requires Drained(s)
    ensures Drained(Step(s, e))
    ensures s.stopping && s.goals == map[] && !e.Crash? ==> Step(s, e).stopping && Step(s, e).goals == map[]
  {
    hide AdmitStep, DispatchStep, CallbackStep, OperatorStep, CancelStep;
    if CancelActiveSucceeds(s) {
      SuccessfulCancelActiveMeansEmpty(s);
    }
    if IsAdmit(e) {
      AdmitAddsNoGoal(s, e);
    } else if IsDispatch(e) {
      DispatchWhileStoppingAddsNoGoal(s, e);
    } else if IsCallback(e) {
      CallbackAddsNoGoal(s, e);
    } else if IsOperator(e) {
      OperatorAddsNoGoal(s, e);
    } else if IsCancel(e) {
      CancelFrame(s, e);
    } else if !e.Crash? {
      ProcessAddsNoGoal(s, e);
    }
  }

  // Every run

  lemma StepKeepsBounded(s: State, e: Event)
    requires Owners(s) && Bounded(s.disk, s.threads)
    ensures Bounded(Step(s, e).disk, Step(s, e).threads)
  {
    hide Bounded, Owners, AdmitStep, DispatchStep, CallbackStep, OperatorStep, CancelStep, ProcessStep;
    if e.SweepLedger? || e.CountLedger? || e.WriteLedger? {
      ClaimingKeepsBounded(s, e);
    } else if IsAdmit(e) {
      ReadKeepsBounded(s, e);
    } else if IsDispatch(e) {
      DispatchEventKeepsBounded(s, e);
    } else if IsCallback(e) {
      CallbackKeepsBounded(s, e);
    } else if IsOperator(e) {
      OperatorKeepsBounded(s, e);
    } else if IsCancel(e) {
      CancelFrame(s, e);
    } else {
      ProcessKeepsBounded(s, e);
    }
  }

  lemma {:induction false} HeedingRunKeepsInv(s: State, events: seq<Event>)
    requires Inv(s) && HeedingRun(Full, s, events)
    ensures Inv(Run(s, events))
    decreases |events|
  {
    hide OwnersOk, Apart, Bounded, Step, Heeds;
    if events != [] {
      var before, e := Run(s, events[..|events| - 1]), events[|events| - 1];
      HeedingRunKeepsInv(s, events[..|events| - 1]);
      StepKeepsOwners(before, e);
      StepKeepsApart(before, e);
      StepKeepsBounded(before, e);
    }
  }

  lemma {:induction false} EveryRunKeepsDrained(s: State, events: seq<Event>)
    requires Drained(s)
    ensures Drained(Run(s, events))
    decreases |events|
  {
    if events != [] {
      EveryRunKeepsDrained(s, events[..|events| - 1]);
      StepKeepsDrained(Run(s, events[..|events| - 1]), events[|events| - 1]);
    }
  }

  lemma StartKeepsInv(registryCapacity: nat, ledgerCapacity: nat)
    ensures Inv(Init(registryCapacity, ledgerCapacity))
  {
  }

  /** At most once: in every run with a careful operator, with any number of concurrent submits, evictions, restarts
      and retention passes, a request id is claimed at most once more often than its ledger row was reclaimed, and
      dispatched at most as often as it was claimed. */
  lemma AtMostOnce(s: State, id: string)
    requires ReachableWith(Full, s)
    ensures s.disk.dispatches[id] <= s.disk.claims[id] <= s.disk.prunes[id] + 1
  {
    hide Owners, Apart, Heeds, Step, Init;
    var registryCapacity: nat, ledgerCapacity: nat, events: seq<Event> :|
      HeedingRun(Full, Init(registryCapacity, ledgerCapacity), events)
      && s == Run(Init(registryCapacity, ledgerCapacity), events);
    StartKeepsInv(registryCapacity, ledgerCapacity);
    HeedingRunKeepsInv(Init(registryCapacity, ledgerCapacity), events);
  }

  lemma {:induction false} EmptyStaysEmpty(s: State, events: seq<Event>)
    requires s.stopping && s.goals == map[]
    requires forall i :: 0 <= i < |events| ==> !events[i].Crash?
    ensures Run(s, events).stopping && Run(s, events).goals == map[]
    decreases |events|
  {
    if events != [] {
      var last := |events| - 1;
      EmptyStaysEmpty(s, events[..last]);
      StepKeepsDrained(Run(s, events[..last]), events[last]);
    }
  }

  /** In every state of a process after cancel_active returned normally, no goal is pending. */
  lemma DrainedMeansEmpty(s: State)
    requires Reachable(s) && s.drained
    ensures s.stopping && s.goals == map[]
  {
    hide Step;
    var registryCapacity: nat, ledgerCapacity: nat, events: seq<Event> :|
      s == Run(Init(registryCapacity, ledgerCapacity), events);
    EveryRunKeepsDrained(Init(registryCapacity, ledgerCapacity), events);
  }

  /** Shutdown drain: once cancel_active has returned normally, no goal is pending in any later state of the process. */
  lemma DrainedStaysEmpty(s: State, t: State)
    requires Reachable(s) && s.drained && LeadsWithoutCrash(s, t)
    ensures t.goals == map[]
  {
    hide Step;
    DrainedMeansEmpty(s);
    var events: seq<Event> :| (forall i :: 0 <= i < |events| ==> !events[i].Crash?) && t == Run(s, events);
    EmptyStaysEmpty(s, events);
  }

  // Identity

  /** The row of `id` is still there with its fingerprint, or retention has removed it and counted that. */
  ghost predicate RowKept(before: Disk, after: Disk, id: string) {
    && before.prunes[id] <= after.prunes[id]
    && (id in before.rows && after.prunes[id] == before.prunes[id] ==>
          id in after.rows && after.rows[id].fingerprint == before.rows[id].fingerprint)
  }

  lemma PutKeepsRow(disk: Disk, row: L.Row, ok: bool, id: string)
    ensures RowKept(disk, disk.(rows := L.Put(disk.rows, row, ok).0), id)
  {
  }

  lemma SweepKeepsRow(disk: Disk, nowNs: int, pruneOk: bool, id: string)
    ensures RowKept(disk, Sweep(disk, L.AfterRetention(disk.rows, nowNs, pruneOk)), id)
  {
    var kept := L.AfterRetention(disk.rows, nowNs, pruneOk);
    assert id in disk.rows && id !in kept ==> multiset(disk.rows.Keys - kept.Keys)[id] == 1;
  }

  lemma LogKeepsRow(
      s: State, t: int, state: RequestState, outcome: uint8, errorCode: uint16, nowNs: int, ok: bool, id: string)
    requires t in s.threads
    ensures RowKept(s.disk, LogStep(s, t, state, outcome, errorCode, nowNs, ok).disk, id)
  {
  }

  lemma SweepStepKeepsRow(s: State, t: int, nowNs: int, pruneOk: bool, id: string)
    requires t in s.threads
    ensures RowKept(s.disk, SweepStep(s, t, nowNs, pruneOk).disk, id)
  {
    SweepKeepsRow(s.disk, nowNs, pruneOk, id);
  }

  lemma WriteStepKeepsRow(s: State, t: int, putOk: bool, id: string)
    requires t in s.threads && s.threads[t].Counted?
    ensures RowKept(s.disk, WriteStep(s, t, putOk).disk, id)
  {
    PutKeepsRow(s.disk, L.ClaimRow(s.threads[t].record, s.threads[t].nowNs), putOk, id);
  }

  lemma SameRow(before: Disk, after: Disk, id: string)
    requires after.rows == before.rows && after.prunes == before.prunes
    ensures RowKept(before, after, id)
  {
  }

  lemma ReadKeepsRow(s: State, e: Event, id: string)
    requires IsAdmit(e) && !e.SweepLedger? && !e.WriteLedger?
    ensures RowKept(s.disk, AdmitStep(s, e).disk, id)
  {
    hide RowKept, ReserveStep, AfterRead, L.HasRoom;
    SameRow(s.disk, AdmitStep(s, e).disk, id);
  }

  lemma AdmitKeepsRow(s: State, e: Event, id: string)
    requires IsAdmit(e)
    ensures RowKept(s.disk, AdmitStep(s, e).disk, id)
  {
    hide RowKept, SweepStep, CountStep, WriteStep, ReserveStep;
    SameRow(s.disk, s.disk, id);
    match e
    case SweepLedger(t, nowNs, pruneOk) =>
      if t in s.threads { SweepStepKeepsRow(s, t, nowNs, pruneOk, id); }
    case WriteLedger(t, putOk) =>
      if t in s.threads && s.threads[t].Counted? { WriteStepKeepsRow(s, t, putOk, id); }
    case _ => ReadKeepsRow(s, e, id);
  }

  lemma IntakeKeepsRow(s: State, e: Event, id: string)
    requires e.Intake? || e.Send? || e.RecoverSend?
    ensures RowKept(s.disk, DispatchStep(s, e).disk, id)
  {
    hide RowKept, R.Update;
    SameRow(s.disk, DispatchStep(s, e).disk, id);
  }

  lemma DispatchKeepsRow(s: State, e: Event, id: string)
    requires IsDispatch(e)
    ensures RowKept(s.disk, DispatchStep(s, e).disk, id)
  {
    hide RowKept, L.Complete, R.Update, R.Erase, IntakeStep, SendStep, RecoverStep;
    SameRow(s.disk, s.disk, id);
    match e
    case LogRejection(t, nowNs, databaseOk) =>
      if t in s.threads && s.threads[t].Rejecting? {
        LogKeepsRow(s, t, Rejected, 0, s.threads[t].errorCode, nowNs, databaseOk, id);
      }
    case Intake(_, _) => IntakeKeepsRow(s, e, id);
    case Send(_, _) => IntakeKeepsRow(s, e, id);
    case RecoverSend(_) => IntakeKeepsRow(s, e, id);
    case _ =>
  }

  lemma LandingKeepsRow(s: State, e: Event, id: string)
    requires e.GoalAccepted? || e.GoalRefused? || e.ShowRefusal? || e.ResultArrived?
    ensures RowKept(s.disk, CallbackStep(s, e).disk, id)
  {
    hide RowKept, R.Update;
    SameRow(s.disk, CallbackStep(s, e).disk, id);
  }

  lemma CallbackKeepsRow(s: State, e: Event, id: string)
    requires IsCallback(e)
    ensures RowKept(s.disk, CallbackStep(s, e).disk, id)
  {
    hide RowKept, L.Complete, R.Update, AcceptStep, RefuseStep, ResultStep;
    SameRow(s.disk, s.disk, id);
    match e
    case LogRefusal(t, nowNs, databaseOk) =>
      if t in s.threads { LogKeepsRow(s, t, Rejected, 0, 400, nowNs, databaseOk, id); }
    case LogResult(t, nowNs, databaseOk) =>
      if t in s.threads && s.threads[t].Finishing? {
        var p := s.threads[t];
        LogKeepsRow(s, t, p.state, p.outcome, p.errorCode, nowNs, databaseOk, id);
      }
    case _ => LandingKeepsRow(s, e, id);
  }

  lemma ResolveWriteKeepsRow(s: State, t: int, nowNs: int, putOk: bool, id: string)
    requires t in s.threads && s.threads[t].Decided?
    ensures RowKept(s.disk, ResolveWriteStep(s, t, nowNs, putOk).disk, id)
  {
    var p := s.threads[t];
    PutKeepsRow(s.disk, L.Row(IdOf(p), p.fingerprint, p.state, 0, 0, "", nowNs), putOk, id);
  }

  lemma OperatorKeepsRow(s: State, e: Event, id: string)
    requires IsOperator(e)
    ensures RowKept(s.disk, OperatorStep(s, e).disk, id)
  {
    hide RowKept, ResolveWriteStep, R.Update;
    SameRow(s.disk, s.disk, id);
    match e
    case ResolveWrite(t, nowNs, putOk) =>
      if t in s.threads && s.threads[t].Decided? { ResolveWriteKeepsRow(s, t, nowNs, putOk, id); }
    case _ => SameRow(s.disk, OperatorStep(s, e).disk, id);
  }

  lemma ProcessKeepsRow(s: State, e: Event, id: string)
    ensures RowKept(s.disk, ProcessStep(s, e).disk, id)
  {
    if e.PruneLedger? {
      SweepKeepsRow(s.disk, e.nowNs, true, id);
    }
  }

  lemma StepKeepsRow(s: State, e: Event, id: string)
    ensures RowKept(s.disk, Step(s, e).disk, id)
  {
    hide AdmitStep, DispatchStep, CallbackStep, OperatorStep, CancelStep, ProcessStep;
    if IsAdmit(e) {
      AdmitKeepsRow(s, e, id);
    } else if IsDispatch(e) {
      DispatchKeepsRow(s, e, id);
    } else if IsCallback(e) {
      CallbackKeepsRow(s, e, id);
    } else if IsOperator(e) {
      OperatorKeepsRow(s, e, id);
    } else if IsCancel(e) {
      CancelFrame(s, e);
    } else {
      ProcessKeepsRow(s, e, id);
    }
  }

  lemma {:induction false} RunKeepsRow(s: State, events: seq<Event>, id: string)
    ensures RowKept(s.disk, Run(s, events).disk, id)
    decreases |events|
  {
    if events != [] {
      var last := |events| - 1;
      var before, e := Run(s, events[..last]), events[last];
      RunKeepsRow(s, events[..last], id);
      StepKeepsRow(before, e, id);
    }
  }

  /** Identity is immutable: over every run, crashes included, a row that retention has not removed keeps its
      fingerprint. */
  lemma IdentityIsImmutable(s: State, t: State, id: string)
    requires Leads(s, t)
    requires id in s.disk.rows && t.disk.prunes[id] == s.disk.prunes[id]
    ensures id in t.disk.rows && t.disk.rows[id].fingerprint == s.disk.rows[id].fingerprint
  {
    var events: seq<Event> :| t == Run(s, events);
    RunKeepsRow(s, events, id);
  }

  /** A claim is only ever recorded under the claiming payload's own fingerprint, which no other payload shares. */
  lemma ClaimMatchesPayload(s: State, t: int, putOk: bool, other: RequestRecord)
    requires t in s.threads && s.threads[t].Counted?
    requires WriteStep(s, t, putOk).disk.claims != s.disk.claims
    ensures var next := WriteStep(s, t, putOk).disk;
            var record := s.threads[t].record;
            && next.claims == s.disk.claims + multiset{record.requestId}
            && record.requestId in next.rows
            && (next.rows[record.requestId].fingerprint == Fingerprint(other) <==> SamePayload(record, other))
  {
    FingerprintIsInjective(s.threads[t].record, other);
  }
}
