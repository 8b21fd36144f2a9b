/** The durable idempotency ledger: a table that survives restarts, and the admission decisions taken from it. */
module Ledger {
  import opened Common
  import opened Requests

  const RETRY_HORIZON_NS: int := 24 * 60 * 60 * 1000 * 1000 * 1000

  datatype Row = Row(
    requestId: string, fingerprint: string, state: RequestState, outcome: uint8, errorCode: uint16,
    message: string, updatedAtNs: int)

  type Table = map<string, Row>

  /** The states the deletion statement lists. */
  const RECLAIMABLE: set<RequestState> := {Completed, Canceled, SafeStop, DeviceFault, Aborted, Rejected}

  function HorizonStart(nowNs: int): int {
    nowNs - RETRY_HORIZON_NS
  }

  /** The guarded upsert: a stored fingerprint is never overwritten. */
  function Put(rows: Table, row: Row, databaseOk: bool): (Table, bool) {
    if row.requestId == "" || row.fingerprint == "" || !databaseOk then (rows, false)
    else if row.requestId in rows && rows[row.requestId].fingerprint != row.fingerprint then (rows, false)
    else (rows[row.requestId := row], true)
  }

  function Unexpired(rows: Table, horizonNs: int): set<string> {
    set id | id in rows && rows[id].updatedAtNs >= horizonNs
  }

  /** What the keep-floor subquery may answer: the newest `limit` rows among the unexpired ones, ties in any order. */
  ghost predicate IsKeepFloor(rows: Table, horizonNs: int, limit: nat, keep: set<string>) {
    && keep <= Unexpired(rows, horizonNs)
    && |keep| == (if |Unexpired(rows, horizonNs)| < limit then |Unexpired(rows, horizonNs)| else limit)
    && forall k, j :: k in keep && j in Unexpired(rows, horizonNs) && j !in keep ==>
         rows[k].updatedAtNs >= rows[j].updatedAtNs
  }

  /** The deletion as the statement is written. */
  function DeleteExpired(rows: Table, horizonNs: int, reclaimable: set<RequestState>, keep: set<string>): Table {
    map id | id in rows && !(rows[id].updatedAtNs < horizonNs && rows[id].state in reclaimable && id !in keep)
      :: rows[id]
  }

  /** The rows retention is allowed to remove. */
  predicate Reclaimed(row: Row, horizonNs: int) {
    row.updatedAtNs < horizonNs && IsTerminal(row.state)
  }

  function Prune(rows: Table, horizonNs: int): Table {
    map id | id in rows && !Reclaimed(rows[id], horizonNs) :: rows[id]
  }

  /** For every keep floor the statement deletes exactly the expired rows with a finished outcome: the subquery never
      protects anything the first clause selects, and unresolved or unexpired rows survive any deletion. */
  lemma DeletionIsExact(rows: Table, horizonNs: int, limit: nat, keep: set<string>)
    requires IsKeepFloor(rows, horizonNs, limit, keep)
    ensures DeleteExpired(rows, horizonNs, RECLAIMABLE, keep) == Prune(rows, horizonNs)
  {
    forall id | id in rows && Reclaimed(rows[id], horizonNs) ensures id !in keep {
      assert id in keep ==> id in Unexpired(rows, horizonNs);
    }
    assert forall state :: state in RECLAIMABLE <==> IsTerminal(state);
  }

  lemma PruneKeepsUnexpired(rows: Table, horizonNs: int)
    ensures Unexpired(Prune(rows, horizonNs), horizonNs) == Unexpired(rows, horizonNs)
  {
    assert forall id :: id in Unexpired(rows, horizonNs) ==> id in Prune(rows, horizonNs);
  }

  datatype Decision = Proceed | Replay | Conflict | Unresolved | Unavailable

  datatype Admission = Admission(decision: Decision, state: Option<RequestState>, outcome: uint8, errorCode: uint16,
                                 message: string)

  /** Which database calls of one admission succeed. */
  datatype Faults = Faults(readOk: bool, pruneOk: bool, countOk: bool, putOk: bool)

  const NO_FAULTS := Faults(true, true, true, true)

  /** The rows are counted only if retention did not fail: both are in one try block. */
  predicate Counts(faults: Faults) {
    faults.pruneOk && faults.countOk
  }

  /** The first half of an admission; None means the request id is unknown and the second half runs. */
  function AdmitRead(rows: Table, record: RequestRecord, readOk: bool): Option<Admission> {
    if !readOk then Some(Admission(Unavailable, None, 0, 503, "durable idempotency ledger unavailable"))
    else if record.requestId !in rows then None
    else
      var row := rows[record.requestId];
      if row.fingerprint != Fingerprint(record) then
        Some(Admission(Conflict, None, 0, 409, "request_id conflicts with a durable request"))
      else if !IsTerminal(row.state) then
        Some(Admission(Unresolved, Some(row.state), row.outcome, row.errorCode,
                       if row.message == "" then "prior dispatch outcome unknown" else row.message))
      else Some(Admission(Replay, Some(row.state), row.outcome, row.errorCode, row.message))
  }

  function ClaimRow(record: RequestRecord, nowNs: int): Row {
    Row(record.requestId, Fingerprint(record), Admitted, 0, 0, "admitted", nowNs)
  }

  function AfterRetention(rows: Table, nowNs: int, pruneOk: bool): Table {
    if pruneOk then Prune(rows, HorizonStart(nowNs)) else rows
  }

  /** The capacity check; it is skipped when retention or the count fails. */
  predicate HasRoom(rows: Table, capacity: nat, nowNs: int, countOk: bool) {
    countOk ==> |Unexpired(rows, HorizonStart(nowNs))| < capacity
  }

  /** The second half: retention, the capacity check, and the claim. */
  function AdmitWrite(rows: Table, capacity: nat, record: RequestRecord, nowNs: int, faults: Faults): (Table, Admission)
  {
    var kept := AfterRetention(rows, nowNs, faults.pruneOk);
    if !HasRoom(kept, capacity, nowNs, Counts(faults)) then
      (kept, Admission(Unavailable, None, 0, 429, "durable idempotency ledger is at capacity"))
    else
      var (claimed, ok) := Put(kept, ClaimRow(record, nowNs), faults.putOk);
      if ok then (claimed, Admission(Proceed, None, 0, 0, ""))
      else (kept, Admission(Unavailable, None, 0, 503, "failed to persist idempotency admission"))
  }

  /** An admission with no other writer between its halves. */
  function Admit(rows: Table, capacity: nat, record: RequestRecord, nowNs: int, faults: Faults): (Table, Admission) {
    var known := AdmitRead(rows, record, faults.readOk);
    if known.Some? then (rows, known.value) else AdmitWrite(rows, capacity, record, nowNs, faults)
  }

  function Complete(
      rows: Table, record: RequestRecord, state: RequestState, outcome: uint8, errorCode: uint16, message: string,
      nowNs: int, databaseOk: bool): (Table, bool)
  {
    Put(rows, Row(record.requestId, Fingerprint(record), state, outcome, errorCode, message, nowNs), databaseOk)
  }

  function Resolve(
      rows: Table, id: string, fingerprint: string, state: RequestState, outcome: uint8, message: string,
      nowNs: int, readOk: bool, putOk: bool): (Table, bool)
  {
    if !IsTerminal(state) || !readOk || id !in rows || IsTerminal(rows[id].state)
       || rows[id].fingerprint != fingerprint
    then (rows, false)
    else Put(rows, Row(id, fingerprint, state, outcome, 0, message, nowNs), putOk)
  }

  /** The other overload, addressed by a full request. */
  function ResolveByRecord(
      rows: Table, record: RequestRecord, state: RequestState, outcome: uint8, errorCode: uint16, message: string,
      nowNs: int, readOk: bool, putOk: bool): (Table, bool)
  {
    if !IsTerminal(state) || !readOk || record.requestId !in rows || IsTerminal(rows[record.requestId].state)
    then (rows, false)
    else Complete(rows, record, state, outcome, errorCode, message, nowNs, putOk)
  }

  /** Both overloads take the same decisions although only one compares fingerprints itself. */
  lemma ResolutionsAgree(
      rows: Table, record: RequestRecord, state: RequestState, outcome: uint8, message: string, nowNs: int,
      readOk: bool, putOk: bool)
    ensures ResolveByRecord(rows, record, state, outcome, 0, message, nowNs, readOk, putOk)
            == Resolve(rows, record.requestId, Fingerprint(record), state, outcome, message, nowNs, readOk, putOk)
  {
  }

  /** Every row that exists before and after a step keeps its identity, and a row that is gone was reclaimable. */
  ghost predicate IdentityKept(before: Table, after: Table, horizonNs: int) {
    forall id :: id in before ==>
      if id in after then after[id].fingerprint == before[id].fingerprint
      else Reclaimed(before[id], horizonNs)
  }

  /** The upsert: a row is written exactly if the database works, both keys are there, and no row of another fingerprint
      is in the way; it then is the stored row, and no other row changes. */
  lemma PutAnswers(rows: Table, row: Row, databaseOk: bool)
    ensures var (after, ok) := Put(rows, row, databaseOk);
            && (ok <==> databaseOk && row.requestId != "" && row.fingerprint != ""
                        && (row.requestId in rows ==> rows[row.requestId].fingerprint == row.fingerprint))
            && after == (if ok then rows[row.requestId := row] else rows)
  {
  }

  /** Retention keeps exactly the rows that are unresolved or at most 24 hours old. */
  lemma RetentionKeepsADay(rows: Table, nowNs: int, id: string)
    requires id in rows
    ensures id in Prune(rows, HorizonStart(nowNs)) <==>
              !IsTerminal(rows[id].state) || nowNs - rows[id].updatedAtNs <= 86_400_000_000_000
    ensures id in Prune(rows, HorizonStart(nowNs)) ==> Prune(rows, HorizonStart(nowNs))[id] == rows[id]
  {
  }

  /** The rows that count against the capacity are those of the last 24 hours. */
  lemma UnexpiredMeans(rows: Table, nowNs: int, id: string)
    ensures id in Unexpired(rows, HorizonStart(nowNs)) <==>
              id in rows && nowNs - rows[id].updatedAtNs <= 86_400_000_000_000
  {
  }

  /** A finished outcome is replayed for 24 hours whatever retention does, with all it was stored with. */
  lemma RecentOutcomeIsReplayed(
      rows: Table, capacity: nat, record: RequestRecord, pruneNs: int, nowNs: int, row: Row)
    requires record.requestId in rows && rows[record.requestId] == row
    requires row.fingerprint == Fingerprint(record) && IsTerminal(row.state)
    requires pruneNs - row.updatedAtNs <= 86_400_000_000_000
    ensures var kept := Prune(rows, HorizonStart(pruneNs));
            Admit(kept, capacity, record, nowNs, NO_FAULTS)
            == (kept, Admission(Replay, Some(row.state), row.outcome, row.errorCode, row.message))
  {
    RetentionKeepsADay(rows, pruneNs, record.requestId);
  }

  /** A completion takes effect exactly if it is for the request that is stored, or none is, and every later retry then
      replays just what the request was completed with. */
  lemma CompletionIsReplayed(
      rows: Table, capacity: nat, record: RequestRecord, state: RequestState, outcome: uint8, errorCode: uint16,
      message: string, nowNs: int, laterNs: int)
    requires IsTerminal(state) && record.requestId != ""
    ensures var (after, ok) := Complete(rows, record, state, outcome, errorCode, message, nowNs, true);
            && (ok <==> record.requestId in rows ==> rows[record.requestId].fingerprint == Fingerprint(record))
            && (!ok ==> after == rows)
            && (ok ==>
                  && Admit(after, capacity, record, laterNs, NO_FAULTS)
                     == (after, Admission(Replay, Some(state), outcome, errorCode, message))
                  && after[record.requestId].updatedAtNs == nowNs
                  && forall id :: id != record.requestId ==>
                       (id in after <==> id in rows) && (id in rows ==> after[id] == rows[id]))
  {
    FingerprintIsNonEmpty(record);
  }

  /** The record overload of an operator decision likewise, with its error code. */
  lemma ResolutionByRecordIsReplayed(
      rows: Table, capacity: nat, record: RequestRecord, state: RequestState, outcome: uint8, errorCode: uint16,
      message: string, nowNs: int, laterNs: int)
    requires record.requestId != ""
    ensures var (after, ok) :=
              ResolveByRecord(rows, record, state, outcome, errorCode, message, nowNs, true, true);
            && (ok <==> IsTerminal(state) && record.requestId in rows
                        && !IsTerminal(rows[record.requestId].state)
                        && rows[record.requestId].fingerprint == Fingerprint(record))
            && (!ok ==> after == rows)
            && (ok ==> Admit(after, capacity, record, laterNs, NO_FAULTS)
                       == (after, Admission(Replay, Some(state), outcome, errorCode, message)))
  {
    FingerprintIsNonEmpty(record);
  }

  /** When each admission answer is given. The answers for a known id do not depend on the clock. */
  lemma AdmitAnswers(rows: Table, capacity: nat, record: RequestRecord, nowNs: int, faults: Faults)
    ensures var admission := Admit(rows, capacity, record, nowNs, faults).1;
            var id := record.requestId;
            var known := faults.readOk && id in rows;
            && (admission.decision == Conflict <==> known && rows[id].fingerprint != Fingerprint(record))
            && (admission.decision == Unresolved <==>
                (known && rows[id].fingerprint == Fingerprint(record) && !IsTerminal(rows[id].state)))
            && (admission.decision == Replay <==>
                (known && rows[id].fingerprint == Fingerprint(record) && IsTerminal(rows[id].state)))
            && (admission.decision == Proceed <==>
                (faults.readOk && id !in rows && id != "" && faults.putOk
                 && (faults.pruneOk && faults.countOk ==> |Unexpired(rows, HorizonStart(nowNs))| < capacity)))
  {
    hide Fingerprint;
    PruneKeepsUnexpired(rows, HorizonStart(nowNs));
    FingerprintIsNonEmpty(record);
  }

  /** What the answers say: a known outcome or an open state as it is stored, 409 for a conflict, 429 for a full ledger,
      503 for a database that fails. */
  lemma AdmitSays(rows: Table, capacity: nat, record: RequestRecord, nowNs: int, faults: Faults)
    ensures var admission := Admit(rows, capacity, record, nowNs, faults).1;
            var id := record.requestId;
            && (admission.decision == Replay ==> admission == Admission(
                  Replay, Some(rows[id].state), rows[id].outcome, rows[id].errorCode, rows[id].message))
            && (admission.decision == Unresolved ==>
                  && admission.state == Some(rows[id].state) && admission.outcome == rows[id].outcome
                  && admission.errorCode == rows[id].errorCode
                  && admission.message == (if rows[id].message == "" then "prior dispatch outcome unknown"
                                           else rows[id].message))
            && (admission.decision == Conflict ==> admission.state.None? && admission.errorCode == 409)
            && (admission.decision == Unavailable ==>
                  && admission.state.None?
                  && admission.errorCode
                     == if faults.readOk && faults.pruneOk && faults.countOk
                           && |Unexpired(rows, HorizonStart(nowNs))| >= capacity
                        then 429 else 503)
            && (admission.decision == Proceed ==> admission.state.None? && admission.errorCode == 0)
  {
    hide Fingerprint, Unexpired;
    AdmitAnswers(rows, capacity, record, nowNs, faults);
    PruneKeepsUnexpired(rows, HorizonStart(nowNs));
  }

  /** What a claim stores: the request's fingerprint in the open state ADMITTED, at the time of the claim. */
  lemma ProceedStoresClaim(rows: Table, capacity: nat, record: RequestRecord, nowNs: int, faults: Faults)
    requires Admit(rows, capacity, record, nowNs, faults).1.decision == Proceed
    ensures var after, id := Admit(rows, capacity, record, nowNs, faults).0, record.requestId;
            id in after && after[id] == Row(id, Fingerprint(record), Admitted, 0, 0, "admitted", nowNs)
  {
    hide Fingerprint, Unexpired;
  }

  lemma NothingKeepsIdentity(rows: Table, horizonNs: int)
    ensures IdentityKept(rows, rows, horizonNs)
  {
  }

  lemma RetentionKeepsIdentity(rows: Table, kept: Table, record: RequestRecord, nowNs: int, pruneOk: bool)
    requires kept == AfterRetention(rows, nowNs, pruneOk)
    ensures IdentityKept(rows, kept, HorizonStart(nowNs))
    ensures record.requestId !in rows ==>
              IdentityKept(rows, kept[record.requestId := ClaimRow(record, nowNs)], HorizonStart(nowNs))
  {
  }

  /** What an admission leaves in the table: a claim adds one unresolved row; apart from it only retention acts. */
  lemma AdmitEffect(rows: Table, capacity: nat, record: RequestRecord, nowNs: int, faults: Faults)
    ensures var (after, admission) := Admit(rows, capacity, record, nowNs, faults);
            && IdentityKept(rows, after, HorizonStart(nowNs))
            && (admission.decision == Proceed ==>
                  && record.requestId !in rows
                  && after == AfterRetention(rows, nowNs, faults.pruneOk)[
                                record.requestId := ClaimRow(record, nowNs)])
            && (admission.decision != Proceed ==> after == rows || after == Prune(rows, HorizonStart(nowNs)))
  {
    hide Fingerprint, Unexpired, IdentityKept;
    var kept := AfterRetention(rows, nowNs, faults.pruneOk);
    RetentionKeepsIdentity(rows, kept, record, nowNs, faults.pruneOk);
    NothingKeepsIdentity(rows, HorizonStart(nowNs));
  }

  /** A claim of a request without a row stays within the capacity exactly if there was room when it was written. */
  lemma ClaimRespectsCapacityExactly(rows: Table, capacity: nat, record: RequestRecord, nowNs: int)
    requires record.requestId !in rows
    ensures var after, horizon := rows[record.requestId := ClaimRow(record, nowNs)], HorizonStart(nowNs);
            && |Unexpired(after, horizon)| == |Unexpired(rows, horizon)| + 1
            && (|Unexpired(after, horizon)| <= capacity <==> |Unexpired(rows, horizon)| < capacity)
  {
    var after, horizon := rows[record.requestId := ClaimRow(record, nowNs)], HorizonStart(nowNs);
    assert Unexpired(after, horizon) == Unexpired(rows, horizon) + {record.requestId};
  }

  /** An admission that proceeds without another writer in between adds one unexpired row, and stays within the
      capacity exactly if there was room before it. When retention and the count work there always was. */
  lemma ProceedRespectsCapacityExactly(rows: Table, capacity: nat, record: RequestRecord, nowNs: int, faults: Faults)
    requires Admit(rows, capacity, record, nowNs, faults).1.decision == Proceed
    ensures var after, horizon := Admit(rows, capacity, record, nowNs, faults).0, HorizonStart(nowNs);
            && |Unexpired(after, horizon)| == |Unexpired(rows, horizon)| + 1
            && (|Unexpired(after, horizon)| <= capacity <==> |Unexpired(rows, horizon)| < capacity)
            && (faults.pruneOk && faults.countOk ==> |Unexpired(after, horizon)| <= capacity)
  {
    var kept := AfterRetention(rows, nowNs, faults.pruneOk);
    PruneKeepsUnexpired(rows, HorizonStart(nowNs));
    AdmitAnswers(rows, capacity, record, nowNs, faults);
    AdmitEffect(rows, capacity, record, nowNs, faults);
    ClaimRespectsCapacityExactly(kept, capacity, record, nowNs);
  }

  /** Without the count check the bound fails: when retention or the count throws, a full ledger of any capacity still
      admits. */
  lemma FailedCountExceedsCapacity(rows: Table, capacity: nat, record: RequestRecord, nowNs: int, faults: Faults)
    requires record.requestId != "" && record.requestId !in rows
    requires |Unexpired(rows, HorizonStart(nowNs))| >= capacity
    requires faults.readOk && faults.putOk && !(faults.pruneOk && faults.countOk)
    ensures var (after, admission) := Admit(rows, capacity, record, nowNs, faults);
            && admission.decision == Proceed
            && |Unexpired(after, HorizonStart(nowNs))| == |Unexpired(rows, HorizonStart(nowNs))| + 1 > capacity
  {
    AdmitAnswers(rows, capacity, record, nowNs, faults);
    ProceedRespectsCapacityExactly(rows, capacity, record, nowNs, faults);
  }

  /** A claim is remembered: the same request comes back as unresolved, a changed payload as a conflict, at any later
      time and whatever retention does in between. */
  lemma ClaimIsRemembered(
      rows: Table, capacity: nat, record: RequestRecord, nowNs: int, faults: Faults, horizonNs: int,
      again: RequestRecord, laterNs: int)
    requires Admit(rows, capacity, record, nowNs, faults).1.decision == Proceed
    requires again.requestId == record.requestId
    ensures var kept := Prune(Admit(rows, capacity, record, nowNs, faults).0, horizonNs);
            Admit(kept, capacity, again, laterNs, NO_FAULTS).1.decision
            == if SamePayload(record, again) then Unresolved else Conflict
  {
    AdmitEffect(rows, capacity, record, nowNs, faults);
    FingerprintIsInjective(record, again);
  }

  /** An operator decision is taken exactly once, only for an unresolved row and a finished outcome, and every later
      retry replays exactly that decision. */
  lemma ResolutionIsReplayed(
      rows: Table, capacity: nat, record: RequestRecord, state: RequestState, outcome: uint8, message: string,
      nowNs: int, laterNs: int)
    ensures var (after, ok) := Resolve(rows, record.requestId, Fingerprint(record), state, outcome, message,
                                       nowNs, true, true);
            && (ok <==> IsTerminal(state) && record.requestId in rows && record.requestId != ""
                        && !IsTerminal(rows[record.requestId].state)
                        && rows[record.requestId].fingerprint == Fingerprint(record))
            && (!ok ==> after == rows)
            && (ok ==>
                  && Admit(after, capacity, record, laterNs, NO_FAULTS)
                     == (after, Admission(Replay, Some(state), outcome, 0, message))
                  && !Resolve(after, record.requestId, Fingerprint(record), state, outcome, message,
                              laterNs, true, true).1)
  {
    FingerprintIsNonEmpty(record);
  }

  lemma RemovalCount(rows: Table, id: string)
    requires id in rows
    ensures |rows - {id}| + 1 == |rows|
  {
    assert (rows - {id}).Keys == rows.Keys - {id};
    assert |rows| == |rows.Keys| && |rows - {id}| == |(rows - {id}).Keys|;
  }

  /** The table as an object of the store. */
  class Store {
    var rows: Table

    constructor ()
      ensures rows == map[]
    {
      rows := map[];
    }

    method PutIdempotency(row: Row, databaseOk: bool) returns (ok: bool)
      modifies this
      ensures (rows, ok) == Put(old(rows), row, databaseOk)
    {
      if row.requestId == "" || row.fingerprint == "" {
        return false;
      }
      if !databaseOk {
        return false;
      }
      if row.requestId !in rows {
        rows := rows[row.requestId := row];
        return true;
      }
      if rows[row.requestId].fingerprint == row.fingerprint {
        rows := rows[row.requestId := row];
        return true;
      }
      return false;
    }

    /** Deletes row by row; `keep` is the subquery's answer. */
    method PruneIdempotency(horizonNs: int, limit: nat, keep: set<string>, databaseOk: bool) returns (removed: nat)
      requires IsKeepFloor(rows, horizonNs, limit, keep)
      modifies this
      ensures rows == if databaseOk then Prune(old(rows), horizonNs) else old(rows)
      ensures removed == |old(rows)| - |rows|
    {
      removed := 0;
      if !databaseOk {
        return;
      }
      DeletionIsExact(rows, horizonNs, limit, keep);
      ghost var before, kept := rows, DeleteExpired(rows, horizonNs, RECLAIMABLE, keep);
      var candidates := rows.Keys;
      while candidates != {}
        invariant candidates <= before.Keys
        invariant forall id :: id in rows <==> id in candidates || id in kept
        invariant forall id :: id in rows ==> id in before && rows[id] == before[id]
        invariant removed + |rows| == |before|
        decreases |candidates|
      {
        var id :| id in candidates;
        if rows[id].updatedAtNs < horizonNs && rows[id].state in RECLAIMABLE && id !in keep {
          RemovalCount(rows, id);
          rows := rows - {id};
          removed := removed + 1;
        }
        candidates := candidates - {id};
      }
      assert rows == kept;
    }

    function CountIdempotency(horizonNs: int): nat
      reads this
    {
      |Unexpired(rows, horizonNs)|
    }
  }

  /** Admission over a store. */
  class DurableIdempotency {
    const store: Store
    const capacity: nat

    constructor (store: Store, capacity: nat)
      requires capacity > 0
      ensures this.store == store && this.capacity == capacity
    {
      this.store := store;
      this.capacity := capacity;
    }

    method AdmitRequest(record: RequestRecord, nowNs: int, faults: Faults, keep: set<string>)
      returns (admission: Admission)
      requires IsKeepFloor(store.rows, HorizonStart(nowNs), capacity, keep)
      modifies store
      ensures (store.rows, admission) == Admit(old(store.rows), capacity, record, nowNs, faults)
    {
      var value := Fingerprint(record);
      if !faults.readOk {
        return Admission(Unavailable, None, 0, 503, "durable idempotency ledger unavailable");
      }
      if record.requestId in store.rows {
        var existing := store.rows[record.requestId];
        if existing.fingerprint != value {
          return Admission(Conflict, None, 0, 409, "request_id conflicts with a durable request");
        }
        if !IsTerminal(existing.state) {
          return Admission(Unresolved, Some(existing.state), existing.outcome, existing.errorCode,
                           if existing.message == "" then "prior dispatch outcome unknown" else existing.message);
        }
        return Admission(Replay, Some(existing.state), existing.outcome, existing.errorCode, existing.message);
      }
      var removed := store.PruneIdempotency(HorizonStart(nowNs), capacity, keep, faults.pruneOk);
      if faults.pruneOk && faults.countOk && store.CountIdempotency(HorizonStart(nowNs)) >= capacity {
        return Admission(Unavailable, None, 0, 429, "durable idempotency ledger is at capacity");
      }
      var ok := store.PutIdempotency(
        Row(record.requestId, value, Admitted, 0, 0, "admitted", nowNs), faults.putOk);
      if !ok {
        return Admission(Unavailable, None, 0, 503, "failed to persist idempotency admission");
      }
      return Admission(Proceed, None, 0, 0, "");
    }

    method ResolveUncertain(
        id: string, fingerprint: string, state: RequestState, outcome: uint8, message: string, nowNs: int,
        readOk: bool, putOk: bool) returns (ok: bool)
      modifies store
      ensures (store.rows, ok)
              == Resolve(old(store.rows), id, fingerprint, state, outcome, message, nowNs, readOk, putOk)
    {
      if !IsTerminal(state) {
        return false;
      }
      if !readOk || id !in store.rows || IsTerminal(store.rows[id].state) {
        return false;
      }
      if store.rows[id].fingerprint != fingerprint {
        return false;
      }
      ok := store.PutIdempotency(Row(id, fingerprint, state, outcome, 0, message, nowNs), putOk);
    }
  }
}
