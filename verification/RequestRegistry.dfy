/** The gateway's bounded in-memory registry with eviction of the oldest finished request. */
module RequestRegistry {
  import opened Common
  import opened Requests

  datatype InsertResult = Inserted | Duplicate | Conflict | Invalid | CapacityReached

  datatype Registry = Registry(records: map<string, RequestRecord>, order: seq<string>)

  ghost predicate Distinct(order: seq<string>) {
    forall i, j :: 0 <= i < j < |order| ==> order[i] != order[j]
  }

  ghost predicate Valid(capacity: nat, r: Registry) {
    && 1 <= capacity
    && |r.order| <= capacity
    && Distinct(r.order)
    && (forall id :: id in r.records <==> id in r.order)
    && (forall id :: id in r.records ==> r.records[id].requestId == id)
    && (forall a, b :: a in r.records && b in r.records && a != b ==> r.records[a].taskId != r.records[b].taskId)
  }

  ghost predicate TaskTaken(r: Registry, taskId: string) {
    exists id :: id in r.records && r.records[id].taskId == taskId
  }

  /** The position of the oldest finished record, counting from `from`. */
  function FindEvictable(r: Registry, from: nat): (i: Option<nat>)
    requires from <= |r.order|
    ensures i.Some? ==> from <= i.value < |r.order|
                        && r.order[i.value] in r.records && IsTerminal(r.records[r.order[i.value]].state)
    ensures var end := if i.Some? then i.value else |r.order|;
            forall k :: from <= k < end ==> !(r.order[k] in r.records && IsTerminal(r.records[r.order[k]].state))
    decreases |r.order| - from
  {
    if from == |r.order| then None
    else if r.order[from] in r.records && IsTerminal(r.records[r.order[from]].state) then Some(from)
    else FindEvictable(r, from + 1)
  }

  function Without(r: Registry, i: nat): Registry
    requires i < |r.order|
  {
    Registry(r.records - {r.order[i]}, r.order[..i] + r.order[i + 1..])
  }

  function Append(r: Registry, record: RequestRecord): Registry {
    Registry(r.records[record.requestId := record], r.order + [record.requestId])
  }

  ghost function Insert(r: Registry, capacity: nat, record: RequestRecord): (Registry, InsertResult) {
    if record.requestId == "" || record.taskId == "" || record.targetId == "" then (r, Invalid)
    else if record.requestId in r.records then
      (r, if Fingerprint(r.records[record.requestId]) == Fingerprint(record) then Duplicate else Conflict)
    else if TaskTaken(r, record.taskId) then (r, Conflict)
    else if |r.records| >= capacity then
      var evictable := FindEvictable(r, 0);
      if evictable.None? then (r, CapacityReached)
      else (Append(Without(r, evictable.value), record), Inserted)
    else (Append(r, record), Inserted)
  }

  function Update(
      r: Registry, id: string, state: RequestState, outcome: uint8, errorCode: uint16, message: string): Registry
  {
    if id !in r.records then r
    else
      r.(records := r.records[id := r.records[id].(
           state := state, outcome := outcome, errorCode := errorCode, message := message)])
  }

  function Remove(order: seq<string>, id: string): seq<string> {
    if order == [] then []
    else (if order[0] == id then [] else [order[0]]) + Remove(order[1..], id)
  }

  function Erase(r: Registry, id: string): Registry {
    if id !in r.records then r else Registry(r.records - {id}, Remove(r.order, id))
  }

  lemma {:induction false} KeyCount(keys: set<string>, order: seq<string>)
    requires Distinct(order) && (forall id :: id in keys <==> id in order)
    ensures |keys| == |order|
  {
    if order != [] {
      var rest := order[1..];
      assert order == [order[0]] + rest;
      assert order[0] !in rest;
      KeyCount(keys - {order[0]}, rest);
    }
  }

  lemma RecordCount(capacity: nat, r: Registry)
    requires Valid(capacity, r)
    ensures |r.records| == |r.order|
  {
    KeyCount(r.records.Keys, r.order);
    assert |r.records| == |r.records.Keys|;
  }

  lemma WithoutKeepsValid(capacity: nat, r: Registry, i: nat)
    requires Valid(capacity, r) && i < |r.order|
    ensures Valid(capacity, Without(r, i))
    ensures forall id :: id in Without(r, i).records <==> id in r.records && id != r.order[i]
  {
    var w := Without(r, i);
    assert r.order == r.order[..i] + [r.order[i]] + r.order[i + 1..];
    assert r.order[i] !in w.order;
    forall id ensures id in w.records <==> id in w.order {
    }
  }

  lemma AppendKeepsValid(capacity: nat, r: Registry, record: RequestRecord)
    requires Valid(capacity, r) && |r.order| < capacity
    requires record.requestId !in r.records && !TaskTaken(r, record.taskId)
    ensures Valid(capacity, Append(r, record))
  {
  }

  /** Exactly when each answer is given. A registry answers that it is full only if nothing in it has finished. */
  lemma InsertAnswers(r: Registry, capacity: nat, record: RequestRecord)
    requires Valid(capacity, r)
    ensures var result := Insert(r, capacity, record).1;
            var wellFormed := record.requestId != "" && record.taskId != "" && record.targetId != "";
            var known := record.requestId in r.records;
            var taken := TaskTaken(r, record.taskId);
            && (result == Invalid <==> !wellFormed)
            && (result == Duplicate <==>
                (wellFormed && known && SamePayload(r.records[record.requestId], record)))
            && (result == Conflict <==>
                (wellFormed && if known then !SamePayload(r.records[record.requestId], record) else taken))
            && (result == CapacityReached <==>
                (wellFormed && !known && !taken && |r.order| == capacity
                 && forall id :: id in r.records ==> !IsTerminal(r.records[id].state)))
  {
    RecordCount(capacity, r);
    if record.requestId in r.records {
      FingerprintIsInjective(r.records[record.requestId], record);
    }
  }

  /** The registry after adding `record`, with the entry at position `evicted` of the age order dropped if given. */
  ghost predicate Added(r: Registry, after: Registry, record: RequestRecord, evicted: Option<nat>) {
    match evicted
    case None =>
      && after.order == r.order + [record.requestId]
      && after.records == r.records[record.requestId := record]
    case Some(i) =>
      && i < |r.order|
      && after.order == r.order[..i] + r.order[i + 1..] + [record.requestId]
      && after.records == (r.records - {r.order[i]})[record.requestId := record]
  }

  ghost predicate OldestTerminal(r: Registry, i: nat) {
    && i < |r.order|
    && r.order[i] in r.records && IsTerminal(r.records[r.order[i]].state)
    && forall k :: 0 <= k < i ==> r.order[k] in r.records && !IsTerminal(r.records[r.order[k]].state)
  }

  lemma EvictionEffect(r: Registry, capacity: nat, record: RequestRecord)
    requires Valid(capacity, r) && |r.order| == capacity
    requires record.requestId !in r.records && !TaskTaken(r, record.taskId)
    requires FindEvictable(r, 0).Some?
    ensures var i := FindEvictable(r, 0).value;
            var after := Append(Without(r, i), record);
            Valid(capacity, after) && OldestTerminal(r, i) && Added(r, after, record, Some(i))
  {
    var i := FindEvictable(r, 0).value;
    WithoutKeepsValid(capacity, r, i);
    AppendKeepsValid(capacity, Without(r, i), record);
  }

  /** Only an accepted record changes the registry; only a full registry evicts, and it evicts the oldest finished
      record: everything older is unfinished and stays. */
  lemma InsertEffect(r: Registry, capacity: nat, record: RequestRecord)
    requires Valid(capacity, r)
    ensures var (after, result) := Insert(r, capacity, record);
            && Valid(capacity, after)
            && (result != Inserted ==> after == r)
            && (result == Inserted ==>
                  && record.requestId !in r.records
                  && (|r.order| < capacity ==> Added(r, after, record, None))
                  && (|r.order| == capacity ==>
                        exists i :: OldestTerminal(r, i) && Added(r, after, record, Some(i))))
  {
    RecordCount(capacity, r);
    if Insert(r, capacity, record).1 == Inserted {
      if |r.order| < capacity {
        AppendKeepsValid(capacity, r, record);
      } else {
        EvictionEffect(r, capacity, record);
      }
    }
  }

  lemma {:induction false} RemoveMissing(order: seq<string>, id: string)
    requires id !in order
    ensures Remove(order, id) == order
  {
    if order != [] {
      assert order == [order[0]] + order[1..];
      RemoveMissing(order[1..], id);
    }
  }

  lemma CutAtHead(order: seq<string>, i: nat)
    requires 0 < i < |order|
    ensures order[..i] == [order[0]] + order[1..][..i - 1] && order[i + 1..] == order[1..][i..]
  {
  }

  lemma {:induction false} RemovePresent(order: seq<string>, i: nat)
    requires Distinct(order) && i < |order|
    ensures Remove(order, order[i]) == order[..i] + order[i + 1..]
  {
    var id, rest := order[i], order[1..];
    if i == 0 {
      assert id !in rest;
      RemoveMissing(rest, id);
      assert order[..0] + rest == rest;
    } else {
      assert order[0] != id && rest[i - 1] == id;
      RemovePresent(rest, i - 1);
      CutAtHead(order, i);
      assert [order[0]] + (rest[..i - 1] + rest[i..]) == ([order[0]] + rest[..i - 1]) + rest[i..];
    }
  }

  /** Erasing a reservation removes exactly that record and keeps the age order of the others. */
  lemma EraseContract(capacity: nat, r: Registry, id: string)
    requires Valid(capacity, r)
    ensures var after := Erase(r, id);
            && Valid(capacity, after)
            && after.records == r.records - {id}
            && (id in r.records ==> exists i ::
                  0 <= i < |r.order| && r.order[i] == id && after.order == r.order[..i] + r.order[i + 1..])
  {
    if id in r.records {
      var i :| 0 <= i < |r.order| && r.order[i] == id;
      RemovePresent(r.order, i);
      WithoutKeepsValid(capacity, r, i);
    } else {
      assert r.records - {id} == r.records;
    }
  }

  lemma UpdateContract(
      capacity: nat, r: Registry, id: string, state: RequestState, outcome: uint8, errorCode: uint16, message: string)
    requires Valid(capacity, r)
    ensures var after := Update(r, id, state, outcome, errorCode, message);
            && Valid(capacity, after)
            && after.order == r.order
            && (forall k :: k in after.records <==> k in r.records)
            && (forall k :: k in r.records ==> SamePayload(after.records[k], r.records[k]))
            && (forall k :: k in r.records && k != id ==> after.records[k] == r.records[k])
            && (id in r.records ==>
                  var now := after.records[id];
                  now.state == state && now.outcome == outcome && now.errorCode == errorCode && now.message == message)
  {
  }

  /** The operations of the registry, as any number of threads may order them. */
  datatype Operation =
    | DoInsert(record: RequestRecord)
    | DoUpdate(id: string, state: RequestState, outcome: uint8, errorCode: uint16, message: string)
    | DoErase(id: string)
    | DoClear

  ghost function Apply(r: Registry, capacity: nat, op: Operation): Registry {
    match op
    case DoInsert(record) => Insert(r, capacity, record).0
    case DoUpdate(id, state, outcome, errorCode, message) => Update(r, id, state, outcome, errorCode, message)
    case DoErase(id) => Erase(r, id)
    case DoClear => Registry(map[], [])
  }

  ghost function ApplyAll(r: Registry, capacity: nat, ops: seq<Operation>): Registry {
    if ops == [] then r else Apply(ApplyAll(r, capacity, ops[..|ops| - 1]), capacity, ops[|ops| - 1])
  }

  /** Over every history the registry stays bounded, its age order lists its keys once each, and no two records
      share a task id. */
  lemma {:induction false} EveryHistoryIsValid(capacity: nat, ops: seq<Operation>)
    requires 1 <= capacity
    ensures Valid(capacity, ApplyAll(Registry(map[], []), capacity, ops))
  {
    if ops != [] {
      var before := ApplyAll(Registry(map[], []), capacity, ops[..|ops| - 1]);
      EveryHistoryIsValid(capacity, ops[..|ops| - 1]);
      match ops[|ops| - 1]
      case DoInsert(record) => InsertEffect(before, capacity, record);
      case DoUpdate(id, state, outcome, errorCode, message) =>
        UpdateContract(capacity, before, id, state, outcome, errorCode, message);
      case DoErase(id) => EraseContract(capacity, before, id);
      case DoClear =>
    }
  }

  /** The registry object; each method is one critical section of its mutex. */
  class RequestRegistry {
    const capacity: nat
    var records: map<string, RequestRecord>
    var insertionOrder: seq<string>

    ghost function View(): Registry
      reads this
    {
      Registry(records, insertionOrder)
    }

    constructor (capacity: nat)
      requires 1 <= capacity
      ensures this.capacity == capacity && View() == Registry(map[], []) && Valid(capacity, View())
    {
      this.capacity := capacity;
      records := map[];
      insertionOrder := [];
    }

    method FindTask(taskId: string) returns (taken: bool)
      ensures taken == TaskTaken(View(), taskId)
    {
      var remaining := records.Keys;
      while remaining != {}
        invariant remaining <= records.Keys
        invariant forall id :: id in records && id !in remaining ==> records[id].taskId != taskId
        decreases |remaining|
      {
        var id :| id in remaining;
        if records[id].taskId == taskId {
          return true;
        }
        remaining := remaining - {id};
      }
      return false;
    }

    method FindOldestTerminal() returns (i: nat, found: bool)
      ensures found ==> FindEvictable(View(), 0) == Some(i)
      ensures !found ==> FindEvictable(View(), 0) == None
    {
      i := 0;
      while i < |insertionOrder|
        invariant 0 <= i <= |insertionOrder|
        invariant FindEvictable(View(), i) == FindEvictable(View(), 0)
      {
        if insertionOrder[i] in records && IsTerminal(records[insertionOrder[i]].state) {
          return i, true;
        }
        i := i + 1;
      }
      return i, false;
    }

    method InsertRecord(record: RequestRecord) returns (result: InsertResult)
      requires Valid(capacity, View())
      modifies this
      ensures (View(), result) == Insert(old(View()), capacity, record)
      ensures Valid(capacity, View())
    {
      hide Fingerprint;
      InsertEffect(View(), capacity, record);
      if record.requestId == "" || record.taskId == "" || record.targetId == "" {
        return Invalid;
      }
      if record.requestId in records {
        return if Fingerprint(records[record.requestId]) == Fingerprint(record) then Duplicate else Conflict;
      }
      var taken := FindTask(record.taskId);
      if taken {
        return Conflict;
      }
      if |records| >= capacity {
        var evictable, found := FindOldestTerminal();
        if !found {
          return CapacityReached;
        }
        records := records - {insertionOrder[evictable]};
        insertionOrder := insertionOrder[..evictable] + insertionOrder[evictable + 1..];
      }
      records := records[record.requestId := record];
      insertionOrder := insertionOrder + [record.requestId];
      return Inserted;
    }

    method UpdateTerminal(id: string, state: RequestState, outcome: uint8, errorCode: uint16, message: string)
      returns (found: bool)
      requires Valid(capacity, View())
      modifies this
      ensures found == (id in old(records))
      ensures View() == Update(old(View()), id, state, outcome, errorCode, message)
      ensures Valid(capacity, View())
    {
      UpdateContract(capacity, View(), id, state, outcome, errorCode, message);
      if id !in records {
        return false;
      }
      records := records[id := records[id].(
        state := state, outcome := outcome, errorCode := errorCode, message := message)];
      return true;
    }

    method EraseRecord(id: string) returns (found: bool)
      requires Valid(capacity, View())
      modifies this
      ensures found == (id in old(records))
      ensures View() == Erase(old(View()), id)
      ensures Valid(capacity, View())
    {
      EraseContract(capacity, View(), id);
      if id !in records {
        return false;
      }
      records := records - {id};
      insertionOrder := Remove(insertionOrder, id);
      return true;
    }
  }
}
