/** What the gateway shows and records: every way a submitted request can go, followed through the steps of its threads
    to the registry that clients read and to the ledger that survives a crash. */
module GatewayAnswers {
  import opened Common
  import opened Requests
  import opened Gateway
  import L = Ledger
  import R = RequestRegistry

  /** The registry shows this for `id`, and nothing else in it has changed. */
  ghost predicate Shows(
      before: R.Registry, after: R.Registry, id: string, state: RequestState, outcome: uint8, errorCode: uint16)
  {
    && after.order == before.order
    && after.records.Keys == before.records.Keys
    && (id in before.records ==>
          && SamePayload(after.records[id], before.records[id])
          && after.records[id].state == state && after.records[id].outcome == outcome
          && after.records[id].errorCode == errorCode)
    && forall k :: k in before.records && k != id ==> after.records[k] == before.records[k]
  }

  lemma ShowShows(s: State, id: string, state: RequestState, outcome: uint8, errorCode: uint16)
    ensures Shows(s.registry, Show(s, id, state, outcome, errorCode).registry, id, state, outcome, errorCode)
    ensures Show(s, id, state, outcome, errorCode)
            == s.(registry := Show(s, id, state, outcome, errorCode).registry)
  {
  }

  /** Nothing was claimed, sent or recorded. */
  ghost predicate NothingDone(before: State, after: State) {
    after.disk == before.disk && after.goals == before.goals && after.flights == before.flights
  }

  // Arrival

  /** What SubmitWorkflow takes in: all ids there, a timeout that fits the goal's duration, and no shutdown. */
  lemma ArrivalExactlyWhen(s: State, t: int, record: RequestRecord)
    requires t !in s.threads
    ensures Step(s, Arrive(t, record)) == s.(threads := s.threads[t := Arrived(record)]) <==>
              && !s.stopping && record.state == Submitting
              && record.requestId != "" && record.workflowId != "" && record.taskId != "" && record.targetId != ""
              && 0 < record.timeoutMs <= 2_147_483_647 * 1000 + 999
  {
    assert t !in s.threads && t in s.threads[t := Arrived(record)];
  }

  /** A request gets its place in the registry, or the thread ends without any. */
  lemma ReservationFollowsInsert(s: State, t: int)
    requires t in s.threads && s.threads[t].Arrived?
    ensures var record, next := s.threads[t].record, Step(s, Reserve(t));
            var (registry, answer) := R.Insert(s.registry, s.registryCapacity, record);
            && NothingDone(s, next)
            && next.registry == (if answer.Inserted? then registry else s.registry)
            && next.threads == if answer.Inserted? then s.threads[t := Reserved(record)] else s.threads - {t}
  {
    hide R.Insert;
  }

  /** A task id of the history is not used again. */
  lemma UsedTaskIsDropped(s: State, t: int, unused: bool)
    requires t in s.threads && s.threads[t].Reserved?
    ensures var record, next := s.threads[t].record, Step(s, CheckHistory(t, unused));
            next == s.(threads := s.threads[t := if unused then Checked(record) else Dropping(record)])
  {
  }

  // Known requests

  function KnownAnswer(r: RequestRecord, row: L.Row): Phase {
    if IsTerminal(row.state) then Answering(r, row.state, row.outcome, row.errorCode)
    else Answering(r, Uncertain, 0, if row.errorCode == 0 then 409 else row.errorCode)
  }

  lemma ReadKnown(s: State, t: int)
    requires t in s.threads && s.threads[t].Checked?
    requires var r := s.threads[t].record;
             r.requestId in s.disk.rows && s.disk.rows[r.requestId].fingerprint == Fingerprint(r)
    ensures var r := s.threads[t].record;
            Step(s, ReadLedger(t, true)) == Set(s, t, KnownAnswer(r, s.disk.rows[r.requestId]))
  {
    hide Fingerprint;
  }

  lemma AnswerGives(s: State, t: int)
    requires t in s.threads && s.threads[t].Answering?
    ensures var p := s.threads[t];
            Step(s, Answer(t)) == End(Show(s, p.record.requestId, p.state, p.outcome, p.errorCode), t)
  {
    hide R.Update;
  }

  /** A request whose outcome the ledger knows is answered with just that outcome, and one whose outcome is open with
      UNCERTAIN and the stored code, or 409 without one; nothing is claimed, sent or recorded for it. */
  lemma KnownRequestIsReplayed(s: State, t: int)
    requires t in s.threads && s.threads[t].Checked?
    requires var r := s.threads[t].record;
             r.requestId in s.disk.rows && s.disk.rows[r.requestId].fingerprint == Fingerprint(r)
    ensures var id := s.threads[t].record.requestId;
            var row, next := s.disk.rows[id], Step(Step(s, ReadLedger(t, true)), Answer(t));
            && NothingDone(s, next) && next.threads == s.threads - {t}
            && if IsTerminal(row.state) then
                 Shows(s.registry, next.registry, id, row.state, row.outcome, row.errorCode)
               else
                 Shows(s.registry, next.registry, id, Uncertain, 0, if row.errorCode == 0 then 409 else row.errorCode)
  {
    hide Step, Fingerprint, R.Update, Shows;
    var r := s.threads[t].record;
    ReadKnown(s, t);
    var p := KnownAnswer(r, s.disk.rows[r.requestId]);
    var read := Set(s, t, p);
    ShowShows(read, r.requestId, p.state, p.outcome, p.errorCode);
    AnswerGives(read, t);
    assert read.threads - {t} == s.threads - {t};
  }

  /** A request that conflicts with a stored one, or for which the ledger cannot be read, leaves no reservation. */
  lemma ConflictLeavesNothing(s: State, t: int, readOk: bool)
    requires t in s.threads && s.threads[t].Checked?
    requires var r := s.threads[t].record;
             !readOk || (r.requestId in s.disk.rows && s.disk.rows[r.requestId].fingerprint != Fingerprint(r))
    ensures var id, next := s.threads[t].record.requestId, Step(Step(s, ReadLedger(t, readOk)), Drop(t));
            && NothingDone(s, next) && next.threads == s.threads - {t}
            && next.registry.records == s.registry.records - {id}
  {
    hide Fingerprint;
    var r := s.threads[t].record;
    var read := Step(s, ReadLedger(t, readOk));
    assert read == Set(s, t, Dropping(r));
    assert Step(read, Drop(t)) == End(Forget(read, r.requestId), t);
    assert read.threads - {t} == s.threads - {t};
    assert r.requestId !in s.registry.records ==> s.registry.records - {r.requestId} == s.registry.records;
  }

  // New requests

  lemma ReadGives(s: State, t: int, readOk: bool)
    requires t in s.threads && s.threads[t].Checked? && s.threads[t].record.requestId !in s.disk.rows
    ensures var r := s.threads[t].record;
            Step(s, ReadLedger(t, readOk)) == Set(s, t, if readOk then ReadAbsent(r) else Dropping(r))
  {
  }

  lemma SweepGives(s: State, t: int, nowNs: int, pruneOk: bool)
    requires t in s.threads
    ensures Step(s, SweepLedger(t, nowNs, pruneOk))
            == if s.threads[t].ReadAbsent? then
                 s.(disk := Sweep(s.disk, L.AfterRetention(s.disk.rows, nowNs, pruneOk)),
                    threads := s.threads[t := if pruneOk then Swept(s.threads[t].record, nowNs)
                                              else Counted(s.threads[t].record, nowNs)])
               else s
  {
    hide L.AfterRetention, Sweep;
  }

  lemma CountGives(s: State, t: int, countOk: bool)
    requires t in s.threads
    ensures var p := s.threads[t];
            Step(s, CountLedger(t, countOk))
            == if p.Swept? then
                 Set(s, t, if L.HasRoom(s.disk.rows, s.ledgerCapacity, p.nowNs, countOk)
                           then Counted(p.record, p.nowNs) else Dropping(p.record))
               else s
  {
    hide L.HasRoom;
  }

  lemma WriteGives(s: State, t: int, putOk: bool)
    requires t in s.threads
    ensures var p := s.threads[t];
            Step(s, WriteLedger(t, putOk))
            == if p.Counted? then
                 var (rows, ok) := L.Put(s.disk.rows, L.ClaimRow(p.record, p.nowNs), putOk);
                 if ok then Set(s.(disk := Claim(s.disk, rows, p.record.requestId)), t, Claimed(p.record))
                 else Set(s, t, Dropping(p.record))
               else s
  {
    hide L.Put, L.ClaimRow, Claim;
  }

  function SweptState(s: State, t: int, r: RequestRecord, nowNs: int, pruneOk: bool): State {
    s.(disk := Sweep(s.disk, L.AfterRetention(s.disk.rows, nowNs, pruneOk)),
       threads := s.threads[t := if pruneOk then Swept(r, nowNs) else Counted(r, nowNs)])
  }

  lemma SkippedCountHasRoom(rows: L.Table, capacity: nat, nowNs: int)
    ensures L.HasRoom(rows, capacity, nowNs, false)
  {
  }

  lemma WrittenAfterRoom(s: State, t: int, r: RequestRecord, nowNs: int, faults: L.Faults)
    requires t in s.threads && s.threads[t] == if faults.pruneOk then Swept(r, nowNs) else Counted(r, nowNs)
    ensures var next := Step(Step(s, CountLedger(t, faults.countOk)), WriteLedger(t, faults.putOk));
            var (rows, ok) := L.Put(s.disk.rows, L.ClaimRow(r, nowNs), faults.putOk);
            var proceeds := L.HasRoom(s.disk.rows, s.ledgerCapacity, nowNs, L.Counts(faults)) && ok;
            && next.disk == (if proceeds then Claim(s.disk, rows, r.requestId) else s.disk)
            && next == s.(disk := next.disk, threads := s.threads[t := if proceeds then Claimed(r) else Dropping(r)])
  {
    hide Step, L.HasRoom, L.Put, L.ClaimRow, Claim;
    CountGives(s, t, faults.countOk);
    var counted := Step(s, CountLedger(t, faults.countOk));
    WriteGives(counted, t, faults.putOk);
    assert !faults.pruneOk ==> L.HasRoom(s.disk.rows, s.ledgerCapacity, nowNs, L.Counts(faults)) by {
      SkippedCountHasRoom(s.disk.rows, s.ledgerCapacity, nowNs);
    }
    assert counted.threads[t := Claimed(r)] == s.threads[t := Claimed(r)];
    assert counted.threads[t := Dropping(r)] == s.threads[t := Dropping(r)];
  }

  lemma NotReadIsDropped(s: State, t: int, r: RequestRecord, nowNs: int, faults: L.Faults)
    requires t in s.threads && s.threads[t] == Dropping(r)
    ensures Step(Step(Step(s, SweepLedger(t, nowNs, faults.pruneOk)), CountLedger(t, faults.countOk)),
                 WriteLedger(t, faults.putOk)) == s
  {
    hide Step;
    SweepGives(s, t, nowNs, faults.pruneOk);
    CountGives(s, t, faults.countOk);
    WriteGives(s, t, faults.putOk);
  }

  lemma NewAdmission(rows: L.Table, capacity: nat, r: RequestRecord, nowNs: int, faults: L.Faults)
    requires r.requestId !in rows
    ensures var (after, admission) := L.Admit(rows, capacity, r, nowNs, faults);
            var kept := L.AfterRetention(rows, nowNs, faults.pruneOk);
            var (claimed, ok) := L.Put(kept, L.ClaimRow(r, nowNs), faults.putOk);
            var proceeds := faults.readOk && L.HasRoom(kept, capacity, nowNs, L.Counts(faults)) && ok;
            && (admission.decision.Proceed? <==> proceeds)
            && after == if proceeds then claimed else if faults.readOk then kept else rows
  {
    hide L.AfterRetention, L.HasRoom, L.Put, L.ClaimRow;
  }

  /** The four steps of an admission, when no other thread comes between, are the ledger's admission: the thread goes on
      to dispatch exactly on PROCEED, and the table is the one the ledger specifies. */
  lemma AdmissionFollowsLedger(s: State, t: int, nowNs: int, faults: L.Faults)
    requires t in s.threads && s.threads[t].Checked? && s.threads[t].record.requestId !in s.disk.rows
    ensures var r := s.threads[t].record;
            var read := Step(s, ReadLedger(t, faults.readOk));
            var counted := Step(Step(read, SweepLedger(t, nowNs, faults.pruneOk)), CountLedger(t, faults.countOk));
            var next := Step(counted, WriteLedger(t, faults.putOk));
            var (rows, admission) := L.Admit(s.disk.rows, s.ledgerCapacity, r, nowNs, faults);
            && next.disk.rows == rows
            && next.threads == s.threads[t := if admission.decision.Proceed? then Claimed(r) else Dropping(r)]
            && next.disk.claims
               == s.disk.claims + (if admission.decision.Proceed? then multiset{r.requestId} else multiset{})
            && next.registry == s.registry && next.goals == s.goals && next.flights == s.flights
  {
    hide Step, L.Admit, L.AfterRetention, L.HasRoom, L.Put, L.ClaimRow;
    var r := s.threads[t].record;
    NewAdmission(s.disk.rows, s.ledgerCapacity, r, nowNs, faults);
    ReadGives(s, t, faults.readOk);
    var read := Step(s, ReadLedger(t, faults.readOk));
    if faults.readOk {
      var swept := SweptState(s, t, r, nowNs, faults.pruneOk);
      SweepGives(read, t, nowNs, faults.pruneOk);
      assert read.threads[t := if faults.pruneOk then Swept(r, nowNs) else Counted(r, nowNs)] == swept.threads;
      assert Step(read, SweepLedger(t, nowNs, faults.pruneOk)) == swept;
      WrittenAfterRoom(swept, t, r, nowNs, faults);
      assert swept.threads[t := Claimed(r)] == s.threads[t := Claimed(r)];
      assert swept.threads[t := Dropping(r)] == s.threads[t := Dropping(r)];
    } else {
      NotReadIsDropped(read, t, r, nowNs, faults);
    }
  }

  // Refusals

  function RejectedRow(record: RequestRecord, errorCode: uint16, nowNs: int): L.Row {
    L.Row(record.requestId, Fingerprint(record), Rejected, 0, errorCode, "", nowNs)
  }

  /** `record` is shown as rejected with `errorCode`, and recorded so if the ledger can be written. */
  ghost predicate Rejects(s: State, next: State, record: RequestRecord, errorCode: uint16, nowNs: int, ok: bool) {
    && Shows(s.registry, next.registry, record.requestId, Rejected, 0, errorCode)
    && next.disk == s.disk.(
         rows := if ok then s.disk.rows[record.requestId := RejectedRow(record, errorCode, nowNs)] else s.disk.rows)
  }

  /** The request is stored as this request's claim, or not at all. */
  ghost predicate Storable(s: State, record: RequestRecord) {
    && record.requestId != ""
    && (record.requestId in s.disk.rows ==> s.disk.rows[record.requestId].fingerprint == Fingerprint(record))
  }

  lemma RejectionIsLogged(s: State, t: int, nowNs: int, ok: bool)
    requires t in s.threads && s.threads[t].Rejecting? && Storable(s, s.threads[t].record)
    ensures var p := s.threads[t];
            Step(s, LogRejection(t, nowNs, ok))
            == s.(disk := s.disk.(rows := if ok then s.disk.rows[p.record.requestId
                                                                 := RejectedRow(p.record, p.errorCode, nowNs)]
                                          else s.disk.rows),
                  threads := s.threads - {t})
  {
    hide Fingerprint;
    FingerprintIsNonEmpty(s.threads[t].record);
  }

  /** A claimed request that is not sent is rejected: 400 for a workflow that is not on the list, 503 without the
      orchestrator or during a shutdown. */
  lemma UnsentIsRejected(s: State, t: int, serverReady: bool, nowNs: int, ok: bool)
    requires t in s.threads && s.threads[t].Claimed? && Storable(s, s.threads[t].record)
    requires var r := s.threads[t].record;
             r.workflowId !in {"single_task", "ready_then_task"} || !serverReady || s.stopping
    ensures var r, next := s.threads[t].record, Step(Step(s, Intake(t, serverReady)), LogRejection(t, nowNs, ok));
            && Rejects(s, next, r, if r.workflowId in {"single_task", "ready_then_task"} then 503 else 400, nowNs, ok)
            && next.goals == s.goals && next.flights == s.flights && next.threads == s.threads - {t}
  {
    hide Fingerprint, R.Update, Shows;
    var r := s.threads[t].record;
    var code: uint16 := if r.workflowId in {"single_task", "ready_then_task"} then 503 else 400;
    ShowShows(s, r.requestId, Rejected, 0, code);
    var taken := Step(s, Intake(t, serverReady));
    assert taken == Set(Show(s, r.requestId, Rejected, 0, code), t, Rejecting(r, code));
    RejectionIsLogged(taken, t, nowNs, ok);
    assert taken.threads - {t} == s.threads - {t};
  }

  /** Otherwise it becomes a pending goal and is sent once. */
  lemma ClaimedIsSent(s: State, t: int)
    requires t in s.threads && s.threads[t].Claimed? && !s.stopping
    requires s.threads[t].record.workflowId in {"single_task", "ready_then_task"}
    ensures var r, next := s.threads[t].record, Step(Step(s, Intake(t, true)), Send(t, true));
            && r.requestId in next.goals && next.goals - {r.requestId} == s.goals - {r.requestId}
            && (r.requestId !in s.goals ==> next.goals[r.requestId] == GoalEntry(r, false))
            && next.flights == s.flights[r.requestId := AwaitingResponse]
            && next.disk == s.disk.(dispatches := s.disk.dispatches + multiset{r.requestId})
            && next.registry == s.registry && next.threads == s.threads[t := Awaiting(r)]
  {
    var r := s.threads[t].record;
    var taken := Step(s, Intake(t, true));
    assert taken == IntakeStep(s, t, true);
    assert taken.threads[t] == Sending(r);
    assert Step(taken, Send(t, true)) == SendStep(taken, t, true);
    assert taken.threads[t := Awaiting(r)] == s.threads[t := Awaiting(r)];
  }

  /** A send that throws leaves no goal and is rejected with 503. */
  lemma FailedSendIsRejected(s: State, t: int, nowNs: int, ok: bool)
    requires t in s.threads && s.threads[t].Sending? && Storable(s, s.threads[t].record)
    ensures var r := s.threads[t].record;
            var next := Step(Step(Step(s, Send(t, false)), RecoverSend(t)), LogRejection(t, nowNs, ok));
            && Rejects(s, next, r, 503, nowNs, ok)
            && next.goals == s.goals - {r.requestId} && next.flights == s.flights
            && next.threads == s.threads - {t}
  {
    hide Fingerprint, R.Update, Shows;
    var r := s.threads[t].record;
    var threw := Step(s, Send(t, false));
    assert threw == Set(s, t, SendThrew(r));
    var recovered := Step(threw, RecoverSend(t));
    var forgotten := threw.(goals := s.goals - {r.requestId});
    ShowShows(forgotten, r.requestId, Rejected, 0, 503);
    assert recovered == Set(Show(forgotten, r.requestId, Rejected, 0, 503), t, Rejecting(r, 503));
    RejectionIsLogged(recovered, t, nowNs, ok);
    assert recovered.threads - {t} == s.threads - {t};
  }

  lemma RefusalGives(s: State, t: int, id: string)
    requires t !in s.threads && id in s.flights && s.flights[id].AwaitingResponse? && id in s.goals
    requires s.goals[id].payload.requestId == id && id != ""
    ensures Step(s, GoalRefused(t, id))
            == Set(s.(flights := s.flights - {id}, goals := s.goals - {id}), t, Refused(s.goals[id].payload))
  {
  }

  lemma RefusalIsLogged(s: State, t: int, nowNs: int, ok: bool)
    requires t in s.threads && s.threads[t].Refused? && Storable(s, s.threads[t].record)
    ensures var r := s.threads[t].record;
            Step(s, LogRefusal(t, nowNs, ok))
            == s.(disk := s.disk.(
                    rows := if ok then s.disk.rows[r.requestId := RejectedRow(r, 400, nowNs)] else s.disk.rows),
                  threads := s.threads[t := RefusedLogged(r)])
  {
    hide Fingerprint;
    FingerprintIsNonEmpty(s.threads[t].record);
  }

  lemma RefusalIsShown(s: State, t: int)
    requires t in s.threads && s.threads[t].RefusedLogged?
    ensures Step(s, ShowRefusal(t)) == End(Show(s, s.threads[t].record.requestId, Rejected, 0, 400), t)
  {
    hide R.Update;
  }

  /** A goal that the orchestrator refuses is gone and rejected with 400. */
  lemma RefusedGoalIsRejected(s: State, t: int, id: string, nowNs: int, ok: bool)
    requires t !in s.threads && id in s.flights && s.flights[id].AwaitingResponse? && id in s.goals
    requires s.goals[id].payload.requestId == id && Storable(s, s.goals[id].payload)
    ensures var next := Step(Step(Step(s, GoalRefused(t, id)), LogRefusal(t, nowNs, ok)), ShowRefusal(t));
            && Rejects(s, next, s.goals[id].payload, 400, nowNs, ok)
            && next.goals == s.goals - {id} && next.flights == s.flights - {id} && next.threads == s.threads
  {
    hide Step, Fingerprint, R.Update, Shows;
    var r := s.goals[id].payload;
    var refused := Set(s.(flights := s.flights - {id}, goals := s.goals - {id}), t, Refused(r));
    RefusalGives(s, t, id);
    RefusalIsLogged(refused, t, nowNs, ok);
    var logged := Step(refused, LogRefusal(t, nowNs, ok));
    RefusalIsShown(logged, t);
    ShowShows(logged, id, Rejected, 0, 400);
    assert logged.threads - {t} == s.threads;
  }

  // Answers of the orchestrator

  /** An accepted goal is shown as running, or as being cancelled if a cancel or a shutdown came first. */
  lemma AcceptedGoalIsShown(s: State, id: string, cancelRequested: bool)
    requires id in s.flights && s.flights[id].AwaitingResponse? && id in s.goals
    ensures var next := Step(s, GoalAccepted(id, cancelRequested));
            && Shows(s.registry, next.registry, id, if s.stopping || cancelRequested then Canceling else Running, 0, 0)
            && next.flights == s.flights[id := AwaitingResult]
            && next.disk == s.disk && next.goals == s.goals && next.threads == s.threads
  {
    hide R.Update, Shows;
    ShowShows(s.(flights := s.flights[id := AwaitingResult]), id,
              if s.stopping || cancelRequested then Canceling else Running, 0, 0);
  }

  /** The states shown for the four outcomes of a workflow and for anything else. */
  lemma StatesOfOutcomes(outcome: uint8)
    ensures StateForOutcome(0) == Completed && StateForOutcome(1) == Canceled
    ensures StateForOutcome(2) == SafeStop && StateForOutcome(3) == DeviceFault
    ensures outcome > 3 ==> StateForOutcome(outcome) == Aborted
  {
  }

  function OutcomeRow(record: RequestRecord, outcome: uint8, errorCode: uint16, nowNs: int): L.Row {
    L.Row(record.requestId, Fingerprint(record), StateForOutcome(outcome), outcome, errorCode, "", nowNs)
  }

  /** A result is shown and recorded with its outcome and error code, and the goal is gone. */
  lemma ResultIsShownAndRecorded(
      s: State, t: int, id: string, outcome: uint8, errorCode: uint16, nowNs: int, ok: bool)
    requires t !in s.threads && id in s.flights && s.flights[id].AwaitingResult? && id in s.goals
    requires s.goals[id].payload.requestId == id && Storable(s, s.goals[id].payload)
    ensures var r := s.goals[id].payload;
            var next := Step(Step(s, ResultArrived(t, id, outcome, errorCode)), LogResult(t, nowNs, ok));
            && Shows(s.registry, next.registry, id, StateForOutcome(outcome), outcome, errorCode)
            && next.disk == s.disk.(
                 rows := if ok then s.disk.rows[id := OutcomeRow(r, outcome, errorCode, nowNs)] else s.disk.rows)
            && next == s.(registry := next.registry, disk := next.disk,
                          goals := s.goals - {id}, flights := s.flights - {id})
  {
    hide Fingerprint, R.Update, Shows;
    var r, state := s.goals[id].payload, StateForOutcome(outcome);
    FingerprintIsNonEmpty(r);
    var landed := s.(flights := s.flights - {id}, goals := s.goals - {id});
    ShowShows(landed, id, state, outcome, errorCode);
    var shown := Set(Show(landed, id, state, outcome, errorCode), t, Finishing(r, state, outcome, errorCode));
    assert Step(s, ResultArrived(t, id, outcome, errorCode)) == ResultStep(s, t, id, outcome, errorCode) == shown;
    var rows := if ok then s.disk.rows[id := OutcomeRow(r, outcome, errorCode, nowNs)] else s.disk.rows;
    assert LogStep(shown, t, state, outcome, errorCode, nowNs, ok).disk.rows == rows;
    assert shown.threads - {t} == s.threads;
  }

  /** A goal response that is late with no cancel asked for is shown as a timeout; else the wait changes nothing. */
  lemma LateResponseIsShown(s: State, t: int, id: string)
    requires t in s.threads && s.threads[t].Awaiting? && s.threads[t].record.requestId == id && id in s.goals
    ensures var next := Step(s, StopWaiting(t, true));
            && NothingDone(s, next) && next.threads == s.threads - {t}
            && Shows(s.registry, next.registry, id, TimedOut, 0, 504)
    ensures Step(s, StopWaiting(t, false)) == s.(threads := s.threads - {t})
  {
    hide R.Update, Shows;
    ShowShows(s, id, TimedOut, 0, 504);
  }

  /** A failed dispatch of a cancel is marked and shown, until it is tried again. */
  lemma FailedCancelIsShown(s: State, id: string)
    requires id in s.goals
    ensures Step(s, CancelRetried(id)) == s.(goals := s.goals[id := s.goals[id].(cancelFailed := false)])
    ensures var next := Step(s, CancelThrew(id));
            && Shows(s.registry, next.registry, id, CancelFailed, 0, 500)
            && next.goals == s.goals[id := s.goals[id].(cancelFailed := true)]
            && next.disk == s.disk && next.flights == s.flights && next.threads == s.threads
  {
    hide R.Update, Shows;
    ShowShows(s.(goals := s.goals[id := s.goals[id].(cancelFailed := true)]), id, CancelFailed, 0, 500);
  }

  /** A cancel is shown as being under way. */
  lemma CancelIsShown(s: State, id: string, outcome: uint8, errorCode: uint16)
    requires id in s.goals
    ensures var next := Step(s, MarkCanceling(id, outcome, errorCode));
            && Shows(s.registry, next.registry, id, Canceling, outcome, errorCode)
            && NothingDone(s, next) && next.threads == s.threads
  {
    hide R.Update, Shows;
    ShowShows(s, id, Canceling, outcome, errorCode);
  }

  // The operator

  lemma ReadForDecision(s: State, t: int, id: string, state: RequestState)
    requires t !in s.threads
    ensures Step(s, ResolveRead(t, id, state, true))
            == if id in s.disk.rows && !IsTerminal(s.disk.rows[id].state) && IsTerminal(state) then
                 Set(s, t, Deciding(NoRequest(id), s.disk.rows[id].fingerprint, state))
               else s
  {
  }

  lemma CheckForDecision(s: State, t: int)
    requires t in s.threads && s.threads[t].Deciding?
    requires var id := s.threads[t].record.requestId;
             id in s.disk.rows && !IsTerminal(s.disk.rows[id].state)
             && s.disk.rows[id].fingerprint == s.threads[t].fingerprint
    ensures var p := s.threads[t];
            Step(s, ResolveCheck(t, true)) == Set(s, t, Decided(p.record, p.fingerprint, p.state))
  {
  }

  lemma WriteOfDecision(s: State, t: int, nowNs: int, ok: bool)
    requires t in s.threads && s.threads[t].Decided?
    requires var p := s.threads[t];
             && p.record.requestId != "" && p.fingerprint != "" && p.record.requestId in s.disk.rows
             && s.disk.rows[p.record.requestId].fingerprint == p.fingerprint
    ensures var p := s.threads[t];
            Step(s, ResolveWrite(t, nowNs, ok))
            == if ok then
                 Set(s.(disk := s.disk.(
                          rows := s.disk.rows[p.record.requestId
                                              := L.Row(p.record.requestId, p.fingerprint, p.state, 0, 0, "", nowNs)])),
                     t, Resolving(p.record, p.state))
               else End(s, t)
  {
  }

  lemma ShowOfDecision(s: State, t: int)
    ensures Step(s, ResolveRegistry(t))
            == if t in s.threads && s.threads[t].Resolving? then
                 End(Show(s, s.threads[t].record.requestId, s.threads[t].state, 0, 0), t)
               else s
  {
    hide R.Update;
  }

  lemma OthersAreIdle(s: State, t: int, nowNs: int, ok: bool)
    requires t !in s.threads
    ensures Step(Step(s, ResolveCheck(t, true)), ResolveWrite(t, nowNs, ok)) == s
  {
  }

  lemma LedgerDecision(rows: L.Table, id: string, state: RequestState, nowNs: int, ok: bool)
    requires id in rows && rows[id].fingerprint != "" && id != ""
    ensures var row := rows[id];
            var decided := IsTerminal(state) && !IsTerminal(row.state) && ok;
            L.Resolve(rows, id, row.fingerprint, state, 0, "", nowNs, true, ok)
            == (if decided then rows[id := L.Row(id, row.fingerprint, state, 0, 0, "", nowNs)] else rows, decided)
  {
  }

  lemma OpenRowIsDecided(s: State, t: int, id: string, state: RequestState, nowNs: int, ok: bool)
    requires t !in s.threads && id in s.disk.rows && s.disk.rows[id].fingerprint != "" && id != ""
    requires !IsTerminal(s.disk.rows[id].state)
    ensures var row := s.disk.rows[id];
            var deciding := Set(s, t, Deciding(NoRequest(id), row.fingerprint, state));
            var written := Step(Step(deciding, ResolveCheck(t, true)), ResolveWrite(t, nowNs, ok));
            var next := Step(written, ResolveRegistry(t));
            && next.disk.rows == (if ok then s.disk.rows[id := L.Row(id, row.fingerprint, state, 0, 0, "", nowNs)]
                                  else s.disk.rows)
            && (if ok then Shows(s.registry, next.registry, id, state, 0, 0) else next.registry == s.registry)
            && next == s.(disk := s.disk.(rows := next.disk.rows), registry := next.registry)
  {
    hide Step, R.Update, Shows;
    var row := s.disk.rows[id];
    var read := Set(s, t, Deciding(NoRequest(id), row.fingerprint, state));
    CheckForDecision(read, t);
    var checked := Set(read, t, Decided(NoRequest(id), row.fingerprint, state));
    WriteOfDecision(checked, t, nowNs, ok);
    var written := Step(checked, ResolveWrite(t, nowNs, ok));
    ShowOfDecision(written, t);
    ShowShows(written, id, state, 0, 0);
    assert checked.threads - {t} == s.threads;
    assert written.threads - {t} == s.threads;
  }

  /** An operator decision, when no other thread comes between its steps, is the ledger's resolution with outcome 0: the
      row is decided exactly if it is open and the decision is a finished state; the registry then shows it. */
  lemma DecisionFollowsLedger(s: State, t: int, id: string, state: RequestState, nowNs: int, ok: bool)
    requires t !in s.threads && id in s.disk.rows && s.disk.rows[id].fingerprint != "" && id != ""
    ensures var read := Step(s, ResolveRead(t, id, state, true));
            var written := Step(Step(read, ResolveCheck(t, true)), ResolveWrite(t, nowNs, ok));
            var next := Step(written, ResolveRegistry(t));
            var row := s.disk.rows[id];
            var decided := IsTerminal(state) && !IsTerminal(row.state) && ok;
            && L.Resolve(s.disk.rows, id, row.fingerprint, state, 0, "", nowNs, true, ok) == (next.disk.rows, decided)
            && next.disk.rows == (if decided then s.disk.rows[id := L.Row(id, row.fingerprint, state, 0, 0, "", nowNs)]
                                  else s.disk.rows)
            && (if decided then Shows(s.registry, next.registry, id, state, 0, 0) else next.registry == s.registry)
            && next == s.(disk := s.disk.(rows := next.disk.rows), registry := next.registry)
  {
    hide Step, R.Update, Shows, L.Resolve;
    var row := s.disk.rows[id];
    LedgerDecision(s.disk.rows, id, state, nowNs, ok);
    ReadForDecision(s, t, id, state);
    if IsTerminal(row.state) || !IsTerminal(state) {
      OthersAreIdle(s, t, nowNs, ok);
      ShowOfDecision(s, t);
    } else {
      OpenRowIsDecided(s, t, id, state, nowNs, ok);
    }
  }

  /** A decision is dropped if the database fails, or if the row was decided or replaced in the meantime. */
  lemma OvertakenDecisionIsDropped(s: State, t: int, readOk: bool)
    requires t in s.threads && s.threads[t].Deciding?
    requires var p := s.threads[t];
             var id := p.record.requestId;
             || !readOk || id !in s.disk.rows || IsTerminal(s.disk.rows[id].state)
             || s.disk.rows[id].fingerprint != p.fingerprint
    ensures Step(s, ResolveCheck(t, readOk)) == s.(threads := s.threads - {t})
  {
  }

  // Across a crash

  /** SubmitWorkflow of a new process, up to its answer. */
  ghost function Resubmitted(s: State, t: int, record: RequestRecord): State {
    var read := Step(Step(Step(Step(s, Arrive(t, record)), Reserve(t)), CheckHistory(t, true)), ReadLedger(t, true));
    Step(read, Answer(t))
  }

  lemma ResubmissionReads(s: State, t: int, record: RequestRecord)
    requires s.registry == R.Registry(map[], []) && s.threads == map[] && !s.stopping && s.registryCapacity >= 1
    requires ValidRequest(record)
    ensures Step(Step(Step(s, Arrive(t, record)), Reserve(t)), CheckHistory(t, true))
            == s.(registry := R.Registry(map[record.requestId := record], [record.requestId]),
                  threads := map[t := Checked(record)])
  {
    var arrived := Step(s, Arrive(t, record));
    assert arrived == Set(s, t, Arrived(record));
    var reserved := Step(arrived, Reserve(t));
    assert !R.TaskTaken(s.registry, record.taskId);
    assert R.Insert(s.registry, s.registryCapacity, record) == (R.Append(s.registry, record), R.Inserted);
    assert reserved == ReserveStep(arrived, t);
    UsedTaskIsDropped(reserved, t, true);
    assert map[record.requestId := record] == s.registry.records[record.requestId := record];
    assert [] + [record.requestId] == [record.requestId];
  }

  lemma CrashForgets(s: State)
    ensures Step(s, Crash) == Start(s.registryCapacity, s.ledgerCapacity, s.disk)
  {
  }

  /** A result outlives the process. Once it was recorded, the process may crash at once: a retry of the same request is
      answered with exactly this outcome, state and error code, and nothing is claimed or sent for it. */
  lemma RecordedResultSurvivesCrash(
      s: State, t: int, id: string, outcome: uint8, errorCode: uint16, nowNs: int, u: int, again: RequestRecord)
    requires t !in s.threads && id in s.flights && s.flights[id].AwaitingResult? && id in s.goals
    requires s.goals[id].payload.requestId == id && Storable(s, s.goals[id].payload)
    requires ValidRequest(again) && SamePayload(again, s.goals[id].payload) && s.registryCapacity >= 1
    ensures var recorded := Step(Step(s, ResultArrived(t, id, outcome, errorCode)), LogResult(t, nowNs, true));
            var next := Resubmitted(Step(recorded, Crash), u, again);
            && id in next.registry.records
            && next.registry.records[id].state == StateForOutcome(outcome)
            && next.registry.records[id].outcome == outcome && next.registry.records[id].errorCode == errorCode
            && next.disk == recorded.disk && next.disk.dispatches == s.disk.dispatches
            && next.disk.claims == s.disk.claims && next.goals == map[]
  {
    hide Step, Fingerprint, R.Update;
    ResultIsShownAndRecorded(s, t, id, outcome, errorCode, nowNs, true);
    var recorded := Step(Step(s, ResultArrived(t, id, outcome, errorCode)), LogResult(t, nowNs, true));
    CrashForgets(recorded);
    var restarted := Step(recorded, Crash);
    ResubmissionReads(restarted, u, again);
    FingerprintIsInjective(again, s.goals[id].payload);
    KnownRequestIsReplayed(
      restarted.(registry := R.Registry(map[id := again], [id]), threads := map[u := Checked(again)]), u);
  }
}
