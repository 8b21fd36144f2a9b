/** Runs that show which assumptions the gateway's bounds need. */
module GatewayRuns {
  import opened Common
  import opened Requests
  import opened Gateway
  import L = Ledger
  import R = RequestRegistry

  const EMPTY := R.Registry(map[], [])

  function Shown(record: RequestRecord, state: RequestState, errorCode: uint16): RequestRecord {
    record.(state := state, outcome := 0, errorCode := errorCode, message := "")
  }

  const FIRST := RequestRecord("x", "task", "target", "single_task", 1, Submitting, 0, 0, "")
  const OTHER := RequestRecord("y", "other task", "target", "single_task", 1, Submitting, 0, 0, "")

  /** The `k`-th of the requests that only take up room. */
  function Filler(k: nat): RequestRecord {
    var name := seq(k + 1, _ => 'f');
    RequestRecord(name, name, "target", "single_task", 1, Submitting, 0, 0, "")
  }

  predicate IsFillerName(name: string, n: nat) {
    0 < |name| <= n && name[0] == 'f'
  }

  /** A request that is no filler. */
  ghost predicate Stranger(a: RequestRecord) {
    a.requestId != "" && a.requestId[0] != 'f' && a.taskId != "" && a.taskId[0] != 'f'
  }

  /** A registry in which `n` unfinished requests take up room, and their threads, which have stalled. */
  ghost predicate Crowd(base: R.Registry, idle: map<int, Phase>, n: nat) {
    && |base.records| == n
    && (forall id :: id in base.records ==>
          && IsFillerName(id, n) && base.records[id].taskId == id && !IsTerminal(base.records[id].state))
    && (forall i :: 0 <= i < |base.order| ==> base.order[i] in base.records)
    && (forall t :: t in idle ==> t < 0 && idle[t].Reserved? && idle[t].record.requestId in base.records)
  }

  /** A property of states that every reliable step keeps. */
  ghost predicate Closed(reached: State -> bool, r: Reliance) {
    forall s, e {:trigger reached(Step(s, e))} :: reached(s) && Heeds(r, s, e) ==> reached(Step(s, e))
  }

  lemma StepReached(reached: State -> bool, r: Reliance, s: State, e: Event)
    requires Closed(reached, r) && reached(s) && Heeds(r, s, e)
    ensures reached(Step(s, e))
  {
  }

  // Segments of runs

  lemma ReserveGives(s: State, t: int, a: RequestRecord, registry: R.Registry)
    requires t in s.threads && s.threads[t] == Arrived(a)
    requires R.Insert(s.registry, s.registryCapacity, a) == (registry, R.Inserted)
    ensures Step(s, Reserve(t)) == s.(registry := registry, threads := s.threads[t := Reserved(a)])
  {
    assert ReserveStep(s, t) == Set(s.(registry := registry), t, Reserved(a));
  }

  /** A new request gets a place in the registry. */
  lemma ReservedReached(
      reached: State -> bool, r: Reliance, s: State, t: int, a: RequestRecord, registry: R.Registry)
    returns (next: State)
    requires Closed(reached, r) && reached(s) && t !in s.threads && !s.stopping && ValidRequest(a)
    requires R.Insert(s.registry, s.registryCapacity, a) == (registry, R.Inserted)
    requires r.IgnoringResubmission? || Unresolved(s, a.requestId)
    ensures reached(next)
    ensures next == s.(registry := registry, threads := s.threads[t := Reserved(a)])
  {
    hide Closed, R.Insert;
    var s1 := Set(s, t, Arrived(a));
    StepReached(reached, r, s, Arrive(t, a));
    assert Step(s, Arrive(t, a)) == s1;
    StepReached(reached, r, s1, Reserve(t));
    ReserveGives(s1, t, a, registry);
    next := s.(registry := registry, threads := s.threads[t := Reserved(a)]);
    assert s1.threads[t := Reserved(a)] == next.threads;
  }

  /** It gets as far as reading no row. */
  lemma ReadReached(
      reached: State -> bool, r: Reliance, s: State, t: int, a: RequestRecord, registry: R.Registry)
    returns (next: State)
    requires Closed(reached, r) && reached(s) && t !in s.threads && !s.stopping && ValidRequest(a)
    requires R.Insert(s.registry, s.registryCapacity, a) == (registry, R.Inserted)
    requires a.requestId !in s.disk.rows
    requires r.IgnoringResubmission? || Unresolved(s, a.requestId)
    ensures reached(next)
    ensures next == s.(registry := registry, threads := s.threads[t := ReadAbsent(a)])
  {
    hide Closed, R.Insert;
    var s1 := ReservedReached(reached, r, s, t, a, registry);
    var s2 := Set(s1, t, Checked(a));
    StepReached(reached, r, s1, CheckHistory(t, true));
    assert AdmitStep(s1, CheckHistory(t, true)) == s2;
    StepReached(reached, r, s2, ReadLedger(t, true));
    assert AfterRead(s2.disk.rows, a, true) == ReadAbsent(a);
    next := Set(s2, t, ReadAbsent(a));
    assert next.threads == s.threads[t := ReadAbsent(a)];
  }

  /** No row is old. */
  ghost predicate AllNew(rows: L.Table) {
    forall id :: id in rows ==> rows[id].updatedAtNs == 0
  }

  lemma NothingIsSwept(disk: Disk)
    requires AllNew(disk.rows)
    ensures Sweep(disk, L.Prune(disk.rows, L.HorizonStart(0))) == disk
  {
    assert L.Prune(disk.rows, L.HorizonStart(0)) == disk.rows;
    assert multiset(disk.rows.Keys - disk.rows.Keys) == multiset{};
  }

  /** It is counted while there is room. */
  lemma CountReached(reached: State -> bool, r: Reliance, s: State, t: int, a: RequestRecord) returns (next: State)
    requires Closed(reached, r) && reached(s) && t in s.threads && s.threads[t] == ReadAbsent(a)
    requires AllNew(s.disk.rows) && |L.Unexpired(s.disk.rows, L.HorizonStart(0))| < s.ledgerCapacity
    ensures reached(next) && next == s.(threads := s.threads[t := Counted(a, 0)])
  {
    hide Closed, AllNew, Sweep, L.Prune, L.Unexpired;
    var s1 := Set(s, t, Swept(a, 0));
    StepReached(reached, r, s, SweepLedger(t, 0, true));
    NothingIsSwept(s.disk);
    assert Step(s, SweepLedger(t, 0, true)) == s1;
    StepReached(reached, r, s1, CountLedger(t, true));
    next := Set(s1, t, Counted(a, 0));
  }

  function WithClaim(s: State, t: int, a: RequestRecord): State {
    s.(disk := Claim(s.disk, s.disk.rows[a.requestId := L.ClaimRow(a, 0)], a.requestId),
       threads := s.threads[t := Claimed(a)])
  }

  /** It writes its claim. */
  lemma WriteReached(reached: State -> bool, r: Reliance, s: State, t: int, a: RequestRecord) returns (next: State)
    requires Closed(reached, r) && reached(s) && t in s.threads && s.threads[t] == Counted(a, 0) && a.requestId != ""
    requires a.requestId in s.disk.rows ==> s.disk.rows[a.requestId].fingerprint == Fingerprint(a)
    ensures reached(next) && next == WithClaim(s, t, a)
  {
    hide Closed;
    FingerprintIsNonEmpty(a);
    StepReached(reached, r, s, WriteLedger(t, true));
    next := WithClaim(s, t, a);
  }

  /** A new request is claimed. */
  lemma ClaimReached(
      reached: State -> bool, r: Reliance, s: State, t: int, a: RequestRecord, registry: R.Registry)
    returns (next: State)
    requires Closed(reached, r) && reached(s) && t !in s.threads && !s.stopping && ValidRequest(a)
    requires R.Insert(s.registry, s.registryCapacity, a) == (registry, R.Inserted)
    requires a.requestId !in s.disk.rows && AllNew(s.disk.rows)
    requires |L.Unexpired(s.disk.rows, L.HorizonStart(0))| < s.ledgerCapacity
    requires r.IgnoringResubmission? || Unresolved(s, a.requestId)
    ensures reached(next) && next == WithClaim(s, t, a).(registry := registry)
  {
    hide Closed, Step, Heeds, R.Insert, Claim, L.Unexpired;
    var s1 := ReadReached(reached, r, s, t, a, registry);
    var s2 := CountReached(reached, r, s1, t, a);
    next := WriteReached(reached, r, s2, t, a);
    assert next.threads == s.threads[t := Claimed(a)];
  }

  /** The process restarts. */
  lemma CrashReached(reached: State -> bool, r: Reliance, s: State) returns (next: State)
    requires Closed(reached, r) && reached(s)
    ensures reached(next) && next == Start(s.registryCapacity, s.ledgerCapacity, s.disk)
  {
    hide Closed;
    StepReached(reached, r, s, Crash);
    next := Start(s.registryCapacity, s.ledgerCapacity, s.disk);
    assert ProcessStep(s, Crash) == next;
  }

  // A crowded registry

  lemma InsertWithRoom(base: R.Registry, idle: map<int, Phase>, n: nat, capacity: nat, a: RequestRecord)
    requires Crowd(base, idle, n) && n < capacity && Stranger(a) && ValidRequest(a)
    ensures R.Insert(base, capacity, a) == (R.Append(base, a), R.Inserted)
  {
  }

  lemma OnlyTheLastIsEvictable(base: R.Registry, idle: map<int, Phase>, n: nat, held: RequestRecord)
    requires Crowd(base, idle, n) && Stranger(held) && IsTerminal(held.state)
    ensures R.FindEvictable(R.Append(base, held), 0) == Some(|base.order|)
  {
    var full, last := R.Append(base, held), |base.order|;
    assert full.order[last] == held.requestId;
    assert forall k :: 0 <= k < last ==> full.order[k] == base.order[k] && base.order[k] != held.requestId;
  }

  lemma WithoutTheLast(base: R.Registry, held: RequestRecord)
    requires held.requestId !in base.records
    ensures R.Without(R.Append(base, held), |base.order|) == base
  {
    var full, last := R.Append(base, held), |base.order|;
    assert full.records - {held.requestId} == base.records;
    assert full.order[..last] == base.order && full.order[last + 1..] == [];
    assert base.order + [] == base.order;
  }

  lemma FullWithTheLast(base: R.Registry, idle: map<int, Phase>, n: nat, held: RequestRecord, b: RequestRecord)
    requires Crowd(base, idle, n) && Stranger(held) && Stranger(b)
    requires held.requestId != b.requestId && held.taskId != b.taskId
    ensures var full := R.Append(base, held);
            && |full.records| == n + 1 && held.requestId !in base.records
            && b.requestId !in full.records && !R.TaskTaken(full, b.taskId)
  {
    var full := R.Append(base, held);
    assert full.records.Keys == base.records.Keys + {held.requestId};
    assert |full.records| == |full.records.Keys| == |base.records.Keys| + 1;
  }

  lemma InsertEvicts(
      base: R.Registry, idle: map<int, Phase>, n: nat, capacity: nat, held: RequestRecord, b: RequestRecord)
    requires Crowd(base, idle, n) && n + 1 == capacity
    requires Stranger(held) && IsTerminal(held.state) && Stranger(b) && ValidRequest(b)
    requires held.requestId != b.requestId && held.taskId != b.taskId
    ensures R.Insert(R.Append(base, held), capacity, b) == (R.Append(base, b), R.Inserted)
  {
    hide Crowd, R.FindEvictable, R.Without, R.TaskTaken;
    FullWithTheLast(base, idle, n, held, b);
    OnlyTheLastIsEvictable(base, idle, n, held);
    WithoutTheLast(base, held);
  }

  lemma {:induction false} RemoveAppended(order: seq<string>, id: string)
    requires id !in order
    ensures R.Remove(order + [id], id) == order
  {
    if order == [] {
      assert [id][1..] == [];
    } else {
      assert (order + [id])[1..] == order[1..] + [id];
      RemoveAppended(order[1..], id);
      assert [order[0]] + order[1..] == order;
    }
  }

  lemma EraseAppended(base: R.Registry, idle: map<int, Phase>, n: nat, b: RequestRecord)
    requires Crowd(base, idle, n) && Stranger(b)
    ensures R.Erase(R.Append(base, b), b.requestId) == base
  {
    RemoveAppended(base.order, b.requestId);
    assert R.Append(base, b).records - {b.requestId} == base.records;
  }

  lemma UpdateAppended(base: R.Registry, a: RequestRecord, state: RequestState, errorCode: uint16)
    ensures R.Update(R.Append(base, a), a.requestId, state, 0, errorCode, "")
            == R.Append(base, Shown(a, state, errorCode))
  {
    var records := base.records;
    assert records[a.requestId := a][a.requestId := Shown(a, state, errorCode)]
           == records[a.requestId := Shown(a, state, errorCode)];
  }

  lemma CrowdGrows(base: R.Registry, idle: map<int, Phase>, n: nat)
    requires Crowd(base, idle, n)
    ensures Crowd(R.Append(base, Filler(n)), idle[0 - n - 1 := Reserved(Filler(n))], n + 1)
    ensures forall capacity: nat :: n < capacity ==>
              R.Insert(base, capacity, Filler(n)) == (R.Append(base, Filler(n)), R.Inserted)
  {
    var filler, name := Filler(n), Filler(n).requestId;
    assert |name| == n + 1 && name !in base.records;
    var grown := R.Append(base, filler);
    assert grown.records.Keys == base.records.Keys + {name};
    assert |grown.records| == |grown.records.Keys| == n + 1;
    assert !R.TaskTaken(base, filler.taskId);
  }

  /** Requests that stall after their reservation take up any room in the registry. */
  lemma {:induction false} CrowdReached(reached: State -> bool, r: Reliance, s: State, n: nat)
    returns (base: R.Registry, idle: map<int, Phase>, next: State)
    requires Closed(reached, r) && reached(s) && s.registry == EMPTY && s.threads == map[] && !s.stopping
    requires n <= s.registryCapacity
    ensures Crowd(base, idle, n) && reached(next) && next == s.(registry := base, threads := idle)
    ensures forall t :: t in idle ==> 0 <= t + n
  {
    hide Closed, Step, Heeds, R.Insert, R.Append;
    if n == 0 {
      base, idle, next := EMPTY, map[], s;
    } else {
      var smaller, fewer, before := CrowdReached(reached, r, s, n - 1);
      CrowdGrows(smaller, fewer, n - 1);
      base := R.Append(smaller, Filler(n - 1));
      idle := fewer[0 - n := Reserved(Filler(n - 1))];
      next := ReservedReached(reached, r, before, 0 - n, Filler(n - 1), base);
    }
  }

  // Requests beside the crowd

  /** A request is dropped again because its task id was used before. */
  lemma DropReached(
      reached: State -> bool, r: Reliance, s: State, t: int, b: RequestRecord, base: R.Registry,
      idle: map<int, Phase>, n: nat) returns (next: State)
    requires Closed(reached, r) && reached(s) && Crowd(base, idle, n) && Stranger(b)
    requires t in s.threads && s.threads[t] == Reserved(b) && s.registry == R.Append(base, b)
    ensures reached(next) && next == s.(registry := base, threads := s.threads - {t})
  {
    hide Closed, Crowd, R.Erase;
    var s1 := Set(s, t, Dropping(b));
    StepReached(reached, r, s, CheckHistory(t, false));
    StepReached(reached, r, s1, Drop(t));
    EraseAppended(base, idle, n, b);
    next := s.(registry := base, threads := s.threads - {t});
    assert s1.threads - {t} == s.threads - {t};
    assert Step(s1, Drop(t)) == next;
  }

  /** Another request evicts the one finished record and is dropped itself. */
  lemma EvictionReached(
      reached: State -> bool, r: Reliance, s: State, t: int, held: RequestRecord, base: R.Registry,
      idle: map<int, Phase>, n: nat) returns (next: State)
    requires Closed(reached, r) && reached(s) && t !in s.threads && !s.stopping
    requires Crowd(base, idle, n) && s.registryCapacity == n + 1
    requires s.registry == R.Append(base, held) && IsTerminal(held.state)
    requires held.requestId == FIRST.requestId && held.taskId == FIRST.taskId
    requires Unresolved(s, OTHER.requestId)
    ensures reached(next) && next == s.(registry := base)
  {
    hide Closed, Crowd, R.Insert, R.Erase;
    InsertEvicts(base, idle, n, n + 1, held, OTHER);
    var s1 := ReservedReached(reached, r, s, t, OTHER, R.Append(base, OTHER));
    next := DropReached(reached, r, s1, t, OTHER, base, idle, n);
    assert s1.threads - {t} == s.threads;
  }

  // The operator and retention

  /** An admitted request whose row is the only one and is still unresolved. */
  ghost predicate Stranded(s: State, a: RequestRecord, idle: map<int, Phase>) {
    && s.ledgerCapacity >= 1 && !s.stopping
    && s.disk.rows == map[a.requestId := L.ClaimRow(a, 0)]
    && s.disk.claims[a.requestId] == 1 && s.disk.prunes[a.requestId] == 0
    && s.threads == idle
  }

  ghost predicate Elsewhere(idle: map<int, Phase>, id: string) {
    forall t :: t in idle ==> t < 0 && idle[t].Reserved? && idle[t].record.requestId != id
  }

  function Resolution(a: RequestRecord): L.Row {
    L.Row(a.requestId, Fingerprint(a), Rejected, 0, 0, "", 0)
  }

  /** The operator looks at it. */
  lemma DecisionReached(reached: State -> bool, r: Reliance, s: State, a: RequestRecord, idle: map<int, Phase>)
    returns (next: State)
    requires Closed(reached, r) && reached(s) && Stranded(s, a, idle) && Elsewhere(idle, a.requestId)
    requires r.IgnoringCallbacks? || a.requestId !in s.flights
    ensures reached(next)
    ensures next == s.(threads := idle[1 := Deciding(NoRequest(a.requestId), Fingerprint(a), Rejected)])
  {
    hide Closed;
    var id := a.requestId;
    assert Heeds(r, s, ResolveRead(1, id, Rejected, true));
    StepReached(reached, r, s, ResolveRead(1, id, Rejected, true));
    next := s.(threads := idle[1 := Deciding(NoRequest(id), Fingerprint(a), Rejected)]);
    assert OperatorStep(s, ResolveRead(1, id, Rejected, true)) == ResolveReadStep(s, 1, id, Rejected) == next;
  }

  lemma CheckGives(s: State, a: RequestRecord)
    requires s.disk.rows == map[a.requestId := L.ClaimRow(a, 0)]
    requires 1 in s.threads && s.threads[1] == Deciding(NoRequest(a.requestId), Fingerprint(a), Rejected)
    ensures Step(s, ResolveCheck(1, true)) == Set(s, 1, Decided(NoRequest(a.requestId), Fingerprint(a), Rejected))
  {
    hide R.Update, L.Put;
    assert OperatorStep(s, ResolveCheck(1, true)) == ResolveCheckStep(s, 1, true);
  }

  lemma WriteGives(s: State, a: RequestRecord)
    requires a.requestId != "" && s.disk.rows == map[a.requestId := L.ClaimRow(a, 0)]
    requires 1 in s.threads && s.threads[1] == Decided(NoRequest(a.requestId), Fingerprint(a), Rejected)
    ensures Step(s, ResolveWrite(1, 0, true))
            == Set(s.(disk := s.disk.(rows := map[a.requestId := Resolution(a)])), 1,
                   Resolving(NoRequest(a.requestId), Rejected))
  {
    hide R.Update, Fingerprint;
    FingerprintIsNonEmpty(a);
    assert s.disk.rows[a.requestId := Resolution(a)] == map[a.requestId := Resolution(a)];
    assert OperatorStep(s, ResolveWrite(1, 0, true)) == ResolveWriteStep(s, 1, 0, true);
  }

  /** The operator decides that it was rejected; only the registry is still to be updated. */
  lemma ResolutionReached(reached: State -> bool, r: Reliance, s: State, a: RequestRecord, idle: map<int, Phase>)
    returns (next: State)
    requires Closed(reached, r) && reached(s) && Stranded(s, a, idle) && Elsewhere(idle, a.requestId)
    requires a.requestId != "" && (r.IgnoringCallbacks? || a.requestId !in s.flights)
    ensures reached(next)
    ensures next == s.(disk := s.disk.(rows := map[a.requestId := Resolution(a)]),
                       threads := idle[1 := Resolving(NoRequest(a.requestId), Rejected)])
  {
    hide Closed, Elsewhere, Step, Fingerprint;
    var s1 := DecisionReached(reached, r, s, a, idle);
    CheckGives(s1, a);
    StepReached(reached, r, s1, ResolveCheck(1, true));
    var s2 := Set(s1, 1, Decided(NoRequest(a.requestId), Fingerprint(a), Rejected));
    WriteGives(s2, a);
    StepReached(reached, r, s2, ResolveWrite(1, 0, true));
    next := s.(disk := s.disk.(rows := map[a.requestId := Resolution(a)]),
               threads := idle[1 := Resolving(NoRequest(a.requestId), Rejected)]);
    assert s2.threads[1 := Resolving(NoRequest(a.requestId), Rejected)] == next.threads;
  }

  lemma PruneOfResolution(disk: Disk, a: RequestRecord)
    requires disk.rows == map[a.requestId := Resolution(a)]
    ensures Sweep(disk, L.Prune(disk.rows, L.HorizonStart(L.RETRY_HORIZON_NS + 1)))
            == disk.(rows := map[], prunes := disk.prunes + multiset{a.requestId})
  {
    assert L.Prune(disk.rows, L.HorizonStart(L.RETRY_HORIZON_NS + 1)) == map[];
    assert disk.rows.Keys - {} == {a.requestId};
    assert multiset({a.requestId}) == multiset{a.requestId};
  }

  /** A day later retention removes the resolved row. */
  lemma PruneReached(reached: State -> bool, r: Reliance, s: State, a: RequestRecord) returns (next: State)
    requires Closed(reached, r) && reached(s) && s.disk.rows == map[a.requestId := Resolution(a)]
    ensures reached(next)
    ensures next == s.(disk := s.disk.(rows := map[], prunes := s.disk.prunes + multiset{a.requestId}))
  {
    hide Closed;
    StepReached(reached, r, s, PruneLedger(L.RETRY_HORIZON_NS + 1));
    PruneOfResolution(s.disk, a);
    next := s.(disk := s.disk.(rows := map[], prunes := s.disk.prunes + multiset{a.requestId}));
    assert ProcessStep(s, PruneLedger(L.RETRY_HORIZON_NS + 1)) == next;
  }

  /** The resolve's last step shows the outcome in the registry. */
  lemma ShownResolutionReached(
      reached: State -> bool, r: Reliance, s: State, held: RequestRecord, base: R.Registry) returns (next: State)
    requires Closed(reached, r) && reached(s)
    requires held.requestId == "x" && s.registry == R.Append(base, held)
    requires 1 in s.threads && s.threads[1] == Resolving(NoRequest("x"), Rejected)
    ensures reached(next)
    ensures next == s.(registry := R.Append(base, Shown(held, Rejected, 0)), threads := s.threads - {1})
  {
    hide Closed, R.Update;
    StepReached(reached, r, s, ResolveRegistry(1));
    UpdateAppended(base, held, Rejected, 0);
    next := s.(registry := R.Append(base, Shown(held, Rejected, 0)), threads := s.threads - {1});
    assert ShowResolution(s, 1) == next;
  }

  // The runs

  /** FIRST is claimed. */
  lemma FirstClaimReached(
      reached: State -> bool, r: Reliance, s: State, base: R.Registry, idle: map<int, Phase>, n: nat)
    returns (next: State)
    requires Closed(reached, r) && reached(s) && Crowd(base, idle, n) && s.registry == base && s.threads == idle
    requires n < s.registryCapacity && s.ledgerCapacity >= 1 && !s.stopping && s.disk.rows == map[]
    ensures reached(next) && next == WithClaim(s, 0, FIRST).(registry := R.Append(base, FIRST))
  {
    hide Closed, Step, Heeds, R.Insert, Claim;
    InsertWithRoom(base, idle, n, s.registryCapacity, FIRST);
    assert L.Unexpired(s.disk.rows, L.HorizonStart(0)) == {};
    next := ClaimReached(reached, r, s, 0, FIRST, R.Append(base, FIRST));
  }

  /** It is dispatched. */
  lemma SentReached(reached: State -> bool, r: Reliance, s: State) returns (next: State)
    requires Closed(reached, r) && reached(s) && !s.stopping
    requires 0 in s.threads && s.threads[0] == Claimed(FIRST) && s.goals == map[] && s.flights == map[]
    ensures reached(next)
    ensures next == s.(disk := s.disk.(dispatches := s.disk.dispatches + multiset{"x"}),
                       goals := map["x" := GoalEntry(FIRST, false)], flights := map["x" := AwaitingResponse],
                       threads := s.threads[0 := Awaiting(FIRST)])
  {
    hide Closed;
    var s1 := s.(goals := map["x" := GoalEntry(FIRST, false)], threads := s.threads[0 := Sending(FIRST)]);
    StepReached(reached, r, s, Intake(0, true));
    assert IntakeStep(s, 0, true) == s1;
    next := s.(disk := s.disk.(dispatches := s.disk.dispatches + multiset{"x"}),
               goals := map["x" := GoalEntry(FIRST, false)], flights := map["x" := AwaitingResponse],
               threads := s.threads[0 := Awaiting(FIRST)]);
    StepReached(reached, r, s1, Send(0, true));
    assert s1.threads[0 := Awaiting(FIRST)] == next.threads;
    assert SendStep(s1, 0, true) == next;
  }

  /** Its response does not come in time. */
  lemma GivenUpReached(reached: State -> bool, s: State, base: R.Registry) returns (next: State)
    requires Closed(reached, IgnoringCallbacks) && reached(s) && s.registry == R.Append(base, FIRST)
    requires 0 in s.threads && s.threads[0] == Awaiting(FIRST) && "x" in s.goals
    ensures reached(next)
    ensures next == s.(registry := R.Append(base, Shown(FIRST, TimedOut, 504)), threads := s.threads - {0})
  {
    hide Closed, R.Update;
    next := s.(registry := R.Append(base, Shown(FIRST, TimedOut, 504)), threads := s.threads - {0});
    StepReached(reached, IgnoringCallbacks, s, StopWaiting(0, true));
    UpdateAppended(base, FIRST, TimedOut, 504);
    assert StopWaitingStep(s, 0, true) == next;
  }

  lemma TimedOutReached(reached: State -> bool, s: State, base: R.Registry, idle: map<int, Phase>, n: nat)
    returns (next: State)
    requires Closed(reached, IgnoringCallbacks) && reached(s) && Crowd(base, idle, n)
    requires s == Init(n + 1, s.ledgerCapacity).(registry := base, threads := idle) && s.ledgerCapacity >= 1
    ensures reached(next) && Stranded(next, FIRST, idle)
    ensures next.registryCapacity == n + 1 && next.ledgerCapacity == s.ledgerCapacity
    ensures next.registry == R.Append(base, Shown(FIRST, TimedOut, 504))
    ensures next.goals == map["x" := GoalEntry(FIRST, false)] && next.flights == map["x" := AwaitingResponse]
  {
    hide Closed;
    var s1 := FirstClaimReached(reached, IgnoringCallbacks, s, base, idle, n);
    var s2 := SentReached(reached, IgnoringCallbacks, s1);
    next := GivenUpReached(reached, s2, base);
    assert s2.threads - {0} == idle;
    assert next.disk.rows == map["x" := L.ClaimRow(FIRST, 0)];
  }

  /** Two threads that both read no row both write, the second over the first. */
  lemma BothWriteReached(reached: State -> bool, r: Reliance, s: State) returns (next: State)
    requires Closed(reached, r) && reached(s) && s.disk.rows == map[] && s.ledgerCapacity >= 1
    requires 3 in s.threads && s.threads[3] == ReadAbsent(FIRST) && 6 in s.threads && s.threads[6] == ReadAbsent(FIRST)
    ensures reached(next) && next.registryCapacity == s.registryCapacity && next.ledgerCapacity == s.ledgerCapacity
    ensures next.disk.claims["x"] == s.disk.claims["x"] + 2 && next.disk.prunes == s.disk.prunes
  {
    hide Closed;
    assert L.Unexpired(s.disk.rows, L.HorizonStart(0)) == {};
    var s1 := CountReached(reached, r, s, 3, FIRST);
    var s2 := CountReached(reached, r, s1, 6, FIRST);
    var s3 := WriteReached(reached, r, s2, 3, FIRST);
    next := WriteReached(reached, r, s3, 6, FIRST);
  }

  /** Two requests of the same id both get past the read, because the first one's record was finished and evicted in
      between; `s` is where the second arrives. */
  lemma SecondReadReached(
      reached: State -> bool, r: Reliance, s: State, held: RequestRecord, base: R.Registry,
      idle: map<int, Phase>, n: nat) returns (next: State)
    requires Closed(reached, r) && reached(s) && Crowd(base, idle, n)
    requires s.registryCapacity == n + 1 && s.ledgerCapacity >= 1 && !s.stopping
    requires s.registry == R.Append(base, held) && IsTerminal(held.state)
    requires held.requestId == FIRST.requestId && held.taskId == FIRST.taskId
    requires s.disk.rows == map[] && s.threads == idle[3 := ReadAbsent(FIRST)]
    ensures reached(next) && next.registryCapacity == n + 1 && next.ledgerCapacity == s.ledgerCapacity
    ensures next.disk.claims["x"] == s.disk.claims["x"] + 2 && next.disk.prunes == s.disk.prunes
  {
    hide Closed, Step, Heeds, R.Insert, R.Append;
    var s1 := EvictionReached(reached, r, s, 5, held, base, idle, n);
    InsertWithRoom(base, idle, n, n + 1, FIRST);
    var s2 := ReadReached(reached, r, s1, 6, FIRST, R.Append(base, FIRST));
    next := BothWriteReached(reached, r, s2);
  }

  lemma RefusalReached(reached: State -> bool, s: State) returns (next: State)
    requires Closed(reached, IgnoringCallbacks) && reached(s) && 4 !in s.threads
    requires s.goals == map["x" := GoalEntry(FIRST, false)] && s.flights == map["x" := AwaitingResponse]
    ensures reached(next)
    ensures next == s.(goals := map[], flights := map[], threads := s.threads[4 := Refused(FIRST)])
  {
    hide Closed;
    StepReached(reached, IgnoringCallbacks, s, GoalRefused(4, "x"));
    assert s.goals - {"x"} == map[] && s.flights - {"x"} == map[];
    next := s.(goals := map[], flights := map[], threads := s.threads[4 := Refused(FIRST)]);
    assert RefuseStep(s, 4, "x") == next;
  }

  lemma UnloggedRefusalReached(reached: State -> bool, s: State) returns (next: State)
    requires Closed(reached, IgnoringCallbacks) && reached(s)
    requires 4 in s.threads && s.threads[4] == Refused(FIRST)
    ensures reached(next) && next == s.(threads := s.threads[4 := RefusedLogged(FIRST)])
  {
    hide Closed;
    StepReached(reached, IgnoringCallbacks, s, LogRefusal(4, 0, false));
    next := s.(threads := s.threads[4 := RefusedLogged(FIRST)]);
    assert LogStep(s, 4, Rejected, 0, 400, 0, false) == s;
    assert CallbackStep(s, LogRefusal(4, 0, false)) == next;
  }

  lemma ShownRefusalReached(reached: State -> bool, s: State, base: R.Registry) returns (next: State)
    requires Closed(reached, IgnoringCallbacks) && reached(s) && s.registry == R.Append(base, FIRST)
    requires 4 in s.threads && s.threads[4] == RefusedLogged(FIRST)
    ensures reached(next)
    ensures next == s.(registry := R.Append(base, Shown(FIRST, Rejected, 400)), threads := s.threads - {4})
  {
    hide Closed, R.Update;
    StepReached(reached, IgnoringCallbacks, s, ShowRefusal(4));
    UpdateAppended(base, FIRST, Rejected, 400);
    next := s.(registry := R.Append(base, Shown(FIRST, Rejected, 400)), threads := s.threads - {4});
    assert CallbackStep(s, ShowRefusal(4)) == next;
  }

  /** The goal of the first request is refused late, when another request of the same id has just read no row. The
      refusal cannot be logged, but it finishes the other request's record. */
  lemma LateRefusalReached(reached: State -> bool, s: State, base: R.Registry) returns (next: State)
    requires Closed(reached, IgnoringCallbacks) && reached(s) && 4 !in s.threads
    requires s.registry == R.Append(base, FIRST)
    requires s.goals == map["x" := GoalEntry(FIRST, false)] && s.flights == map["x" := AwaitingResponse]
    ensures reached(next)
    ensures next == s.(registry := R.Append(base, Shown(FIRST, Rejected, 400)), goals := map[], flights := map[])
  {
    hide Closed;
    var s1 := RefusalReached(reached, s);
    var s2 := UnloggedRefusalReached(reached, s1);
    next := ShownRefusalReached(reached, s2, base);
    assert s2.threads - {4} == s.threads;
  }

  /** A goal of FIRST is in flight when FIRST is resolved and its row reclaimed. */
  lemma ReclaimedReached(reached: State -> bool, n: nat, ledgerCapacity: nat)
    returns (base: R.Registry, idle: map<int, Phase>, s: State)
    requires Closed(reached, IgnoringCallbacks) && reached(Init(n + 1, ledgerCapacity)) && ledgerCapacity >= 1
    ensures Crowd(base, idle, n) && reached(s) && s.registryCapacity == n + 1 && s.ledgerCapacity == ledgerCapacity
    ensures s.registry == R.Append(base, Shown(FIRST, Rejected, 0)) && s.threads == idle && !s.stopping
    ensures s.goals == map["x" := GoalEntry(FIRST, false)] && s.flights == map["x" := AwaitingResponse]
    ensures s.disk.rows == map[] && s.disk.claims["x"] == 1 && s.disk.prunes["x"] == 1
  {
    hide Closed, Step, Heeds, R.Insert;
    var r, start := IgnoringCallbacks, Init(n + 1, ledgerCapacity);
    var s0;
    base, idle, s0 := CrowdReached(reached, r, start, n);
    var s1 := TimedOutReached(reached, s0, base, idle, n);
    var s2 := ResolutionReached(reached, r, s1, FIRST, idle);
    var s3 := ShownResolutionReached(reached, r, s2, Shown(FIRST, TimedOut, 504), base);
    assert s2.threads - {1} == idle;
    s := PruneReached(reached, r, s3, FIRST);
  }

  /** FIRST is submitted again. */
  lemma ResubmittedReached(reached: State -> bool, n: nat, ledgerCapacity: nat)
    returns (base: R.Registry, idle: map<int, Phase>, s: State)
    requires Closed(reached, IgnoringCallbacks) && reached(Init(n + 1, ledgerCapacity)) && ledgerCapacity >= 1
    ensures Crowd(base, idle, n) && reached(s) && s.registryCapacity == n + 1 && s.ledgerCapacity == ledgerCapacity
    ensures s.registry == R.Append(base, FIRST) && s.threads == idle[3 := ReadAbsent(FIRST)] && !s.stopping
    ensures s.goals == map["x" := GoalEntry(FIRST, false)] && s.flights == map["x" := AwaitingResponse]
    ensures s.disk.rows == map[] && s.disk.claims["x"] == 1 && s.disk.prunes["x"] == 1
  {
    hide Closed, Step, Heeds, R.Insert;
    var s1;
    base, idle, s1 := ReclaimedReached(reached, n, ledgerCapacity);
    var s2 := EvictionReached(reached, IgnoringCallbacks, s1, 2, Shown(FIRST, Rejected, 0), base, idle, n);
    InsertWithRoom(base, idle, n, n + 1, FIRST);
    s := ReadReached(reached, IgnoringCallbacks, s2, 3, FIRST, R.Append(base, FIRST));
  }

  lemma CallbackRunReached(reached: State -> bool, n: nat, ledgerCapacity: nat) returns (s: State)
    requires Closed(reached, IgnoringCallbacks) && reached(Init(n + 1, ledgerCapacity)) && ledgerCapacity >= 1
    ensures reached(s) && s.registryCapacity == n + 1 && s.ledgerCapacity == ledgerCapacity
    ensures s.disk.claims["x"] == 3 && s.disk.prunes["x"] == 1
  {
    hide Closed;
    var base, idle, s1 := ResubmittedReached(reached, n, ledgerCapacity);
    var s2 := LateRefusalReached(reached, s1, base);
    s := SecondReadReached(reached, IgnoringCallbacks, s2, Shown(FIRST, Rejected, 400), base, idle, n);
  }

  /** FIRST is claimed, the process crashes, and FIRST is resolved and its row reclaimed while other requests come in;
      the registry is still to be updated. */
  lemma AlmostResolvedReached(reached: State -> bool, n: nat, ledgerCapacity: nat)
    returns (base: R.Registry, idle: map<int, Phase>, s: State)
    requires Closed(reached, IgnoringResubmission) && reached(Init(n + 1, ledgerCapacity)) && ledgerCapacity >= 1
    ensures Crowd(base, idle, n) && reached(s) && s.registryCapacity == n + 1 && s.ledgerCapacity == ledgerCapacity
    ensures s.registry == base && s.threads == idle[1 := Resolving(NoRequest("x"), Rejected)] && !s.stopping
    ensures s.disk.rows == map[] && s.disk.claims["x"] == 1 && s.disk.prunes["x"] == 1
  {
    hide Closed, Step, Heeds, R.Insert;
    var r, start := IgnoringResubmission, Init(n + 1, ledgerCapacity);
    var s0 := FirstClaimReached(reached, r, start, EMPTY, map[], 0);
    var s1 := CrashReached(reached, r, s0);
    assert s1.disk.rows == map["x" := L.ClaimRow(FIRST, 0)];
    var s2;
    base, idle, s2 := CrowdReached(reached, r, s1, n);
    var s3 := ResolutionReached(reached, r, s2, FIRST, idle);
    s := PruneReached(reached, r, s3, FIRST);
  }

  lemma ResubmissionRunReached(reached: State -> bool, n: nat, ledgerCapacity: nat) returns (s: State)
    requires Closed(reached, IgnoringResubmission) && reached(Init(n + 1, ledgerCapacity)) && ledgerCapacity >= 1
    ensures reached(s) && s.registryCapacity == n + 1 && s.ledgerCapacity == ledgerCapacity
    ensures s.disk.claims["x"] == 3 && s.disk.prunes["x"] == 1
  {
    hide Closed, Step, Heeds, R.Insert;
    var r := IgnoringResubmission;
    var base, idle, s1 := AlmostResolvedReached(reached, n, ledgerCapacity);
    InsertWithRoom(base, idle, n, n + 1, FIRST);
    var s2 := ReadReached(reached, r, s1, 3, FIRST, R.Append(base, FIRST));
    var s3 := ShownResolutionReached(reached, r, s2, FIRST, base);
    assert s3.threads == idle[3 := ReadAbsent(FIRST)];
    s := SecondReadReached(reached, r, s3, Shown(FIRST, Rejected, 0), base, idle, n);
  }

  lemma OneMoreStep(r: Reliance, s: State, e: Event)
    requires ReachableWith(r, s) && Heeds(r, s, e)
    ensures ReachableWith(r, Step(s, e))
  {
    var registryCapacity: nat, ledgerCapacity: nat, events: seq<Event> :|
      HeedingRun(r, Init(registryCapacity, ledgerCapacity), events)
      && s == Run(Init(registryCapacity, ledgerCapacity), events);
    assert (events + [e])[..|events|] == events;
    assert HeedingRun(r, Init(registryCapacity, ledgerCapacity), events + [e]);
    assert Run(Init(registryCapacity, ledgerCapacity), events + [e]) == Step(s, e);
  }

  lemma ReachableIsClosed(r: Reliance)
    ensures Closed(s => ReachableWith(r, s), r)
  {
    forall s, e | ReachableWith(r, s) && Heeds(r, s, e) ensures ReachableWith(r, Step(s, e)) {
      OneMoreStep(r, s, e);
    }
  }

  lemma StartReached(r: Reliance, registryCapacity: nat, ledgerCapacity: nat)
    ensures ReachableWith(r, Init(registryCapacity, ledgerCapacity))
  {
    assert HeedingRun(r, Init(registryCapacity, ledgerCapacity), []);
    assert Run(Init(registryCapacity, ledgerCapacity), []) == Init(registryCapacity, ledgerCapacity);
  }

  /** Resolving an id while a callback of it is outstanding breaks the bound, even if no thread is at work on it, at any
      capacity. */
  lemma ResolvingUnderACallbackIsUnsafe(registryCapacity: nat, ledgerCapacity: nat)
    requires registryCapacity >= 1 && ledgerCapacity >= 1
    ensures exists s ::
              && ReachableWith(IgnoringCallbacks, s)
              && s.registryCapacity == registryCapacity && s.ledgerCapacity == ledgerCapacity
              && s.disk.claims["x"] == 3 && s.disk.prunes["x"] == 1
  {
    ReachableIsClosed(IgnoringCallbacks);
    StartReached(IgnoringCallbacks, registryCapacity, ledgerCapacity);
    var s := CallbackRunReached(s => ReachableWith(IgnoringCallbacks, s), registryCapacity - 1, ledgerCapacity);
  }

  /** So does submitting a request under an id that is still being resolved. */
  lemma ResubmittingDuringAResolveIsUnsafe(registryCapacity: nat, ledgerCapacity: nat)
    requires registryCapacity >= 1 && ledgerCapacity >= 1
    ensures exists s ::
              && ReachableWith(IgnoringResubmission, s)
              && s.registryCapacity == registryCapacity && s.ledgerCapacity == ledgerCapacity
              && s.disk.claims["x"] == 3 && s.disk.prunes["x"] == 1
  {
    ReachableIsClosed(IgnoringResubmission);
    StartReached(IgnoringResubmission, registryCapacity, ledgerCapacity);
    var s := ResubmissionRunReached(s => ReachableWith(IgnoringResubmission, s), registryCapacity - 1, ledgerCapacity);
  }

  /** A run that dispatches FIRST once. */
  lemma DispatchIsReachable(r: Reliance, registryCapacity: nat, ledgerCapacity: nat) returns (s: State)
    requires registryCapacity >= 1 && ledgerCapacity >= 1
    ensures ReachableWith(r, s) && s.registryCapacity == registryCapacity && s.ledgerCapacity == ledgerCapacity
    ensures s.disk.dispatches["x"] == 1 && s.disk.prunes["x"] == 0
  {
    hide Closed, Step, Heeds, ReachableWith;
    ReachableIsClosed(r);
    StartReached(r, registryCapacity, ledgerCapacity);
    var reached := (s: State) => ReachableWith(r, s);
    var s1 := FirstClaimReached(reached, r, Init(registryCapacity, ledgerCapacity), EMPTY, map[], 0);
    s := SentReached(reached, r, s1);
  }

  // What concurrent admissions do to the ledger's capacity

  /** `n` unexpired rows, all of fillers. */
  ghost predicate FillerRows(disk: Disk, n: nat) {
    && |disk.rows| == n
    && forall id :: id in disk.rows ==> IsFillerName(id, n) && disk.rows[id].updatedAtNs == 0
  }

  lemma FillerRowsAreUnexpired(disk: Disk, n: nat)
    requires FillerRows(disk, n)
    ensures L.Unexpired(disk.rows, L.HorizonStart(0)) == disk.rows.Keys
    ensures |L.Unexpired(disk.rows, L.HorizonStart(0))| == n && AllNew(disk.rows)
  {
    assert L.Unexpired(disk.rows, L.HorizonStart(0)) == disk.rows.Keys;
  }

  lemma FillerRowsGrow(disk: Disk, n: nat)
    requires FillerRows(disk, n)
    ensures var name := Filler(n).requestId;
            name !in disk.rows && FillerRows(Claim(disk, disk.rows[name := L.ClaimRow(Filler(n), 0)], name), n + 1)
  {
    var name := Filler(n).requestId;
    assert |name| == n + 1;
    var rows := disk.rows[name := L.ClaimRow(Filler(n), 0)];
    assert rows.Keys == disk.rows.Keys + {name};
    assert |rows| == |rows.Keys| == n + 1;
  }

  lemma InsertIntoEmpty(capacity: nat, a: RequestRecord)
    requires capacity >= 1 && ValidRequest(a)
    ensures R.Insert(EMPTY, capacity, a) == (R.Append(EMPTY, a), R.Inserted)
  {
  }

  /** A filler is admitted and the process restarts. */
  lemma FillerRowReached(
      reached: State -> bool, registryCapacity: nat, ledgerCapacity: nat, disk: Disk, n: nat) returns (more: Disk)
    requires Closed(reached, WorkingCounts) && registryCapacity >= 1 && n < ledgerCapacity
    requires FillerRows(disk, n) && reached(Start(registryCapacity, ledgerCapacity, disk))
    ensures FillerRows(more, n + 1) && reached(Start(registryCapacity, ledgerCapacity, more))
  {
    hide Closed, Step, Heeds, R.Insert, FillerRows, Claim, L.Unexpired;
    var s, filler := Start(registryCapacity, ledgerCapacity, disk), Filler(n);
    FillerRowsGrow(disk, n);
    FillerRowsAreUnexpired(disk, n);
    InsertIntoEmpty(registryCapacity, filler);
    var s1 := ClaimReached(reached, WorkingCounts, s, 0, filler, R.Append(EMPTY, filler));
    var s2 := CrashReached(reached, WorkingCounts, s1);
    more := s1.disk;
  }

  /** Any number of rows below the capacity. */
  lemma {:induction false} FillerRowsReached(
      reached: State -> bool, registryCapacity: nat, ledgerCapacity: nat, n: nat) returns (disk: Disk)
    requires Closed(reached, WorkingCounts) && registryCapacity >= 1 && n <= ledgerCapacity
    requires reached(Init(registryCapacity, ledgerCapacity))
    ensures FillerRows(disk, n) && reached(Start(registryCapacity, ledgerCapacity, disk))
  {
    hide Closed;
    if n == 0 {
      disk := Disk(map[], multiset{}, multiset{}, multiset{});
    } else {
      var fewer := FillerRowsReached(reached, registryCapacity, ledgerCapacity, n - 1);
      disk := FillerRowReached(reached, registryCapacity, ledgerCapacity, fewer, n - 1);
    }
  }

  lemma InsertBeside(held: RequestRecord, capacity: nat, b: RequestRecord)
    requires held.requestId != b.requestId && held.taskId != b.taskId && ValidRequest(b) && capacity >= 2
    ensures R.Insert(R.Append(EMPTY, held), capacity, b) == (R.Append(R.Append(EMPTY, held), b), R.Inserted)
  {
    assert R.Append(EMPTY, held).records == map[held.requestId := held];
    assert |R.Append(EMPTY, held).records| == 1;
  }

  /** With room for one more row, two requests are counted before either writes. */
  lemma BothCountedReached(reached: State -> bool, s: State, n: nat) returns (next: State)
    requires Closed(reached, WorkingCounts) && reached(s)
    requires s == Start(s.registryCapacity, n + 1, s.disk) && s.registryCapacity >= 2 && FillerRows(s.disk, n)
    ensures reached(next) && next.disk == s.disk
    ensures next.registryCapacity == s.registryCapacity && next.ledgerCapacity == n + 1
    ensures next.threads == map[0 := Counted(FIRST, 0), 1 := Counted(OTHER, 0)]
  {
    hide Closed, R.Insert;
    var r := WorkingCounts;
    FillerRowsAreUnexpired(s.disk, n);
    InsertIntoEmpty(s.registryCapacity, FIRST);
    var s1 := ReadReached(reached, r, s, 0, FIRST, R.Append(EMPTY, FIRST));
    InsertBeside(FIRST, s.registryCapacity, OTHER);
    var s2 := ReadReached(reached, r, s1, 1, OTHER, R.Append(R.Append(EMPTY, FIRST), OTHER));
    var s3 := CountReached(reached, r, s2, 0, FIRST);
    next := CountReached(reached, r, s3, 1, OTHER);
  }

  lemma TwoRowsMore(disk: Disk, rows: L.Table, n: nat)
    requires FillerRows(disk, n)
    requires rows == disk.rows["x" := L.ClaimRow(FIRST, 0)]["y" := L.ClaimRow(OTHER, 0)]
    ensures |L.Unexpired(rows, L.HorizonStart(0))| == n + 2
  {
    assert L.Unexpired(rows, L.HorizonStart(0)) == disk.rows.Keys + {"x"} + {"y"};
  }

  lemma FillersAreStrangers(disk: Disk, n: nat)
    requires FillerRows(disk, n)
    ensures "x" !in disk.rows && "y" !in disk.rows
  {
  }

  lemma CrowdedRunReached(reached: State -> bool, registryCapacity: nat, n: nat) returns (s: State)
    requires Closed(reached, WorkingCounts) && reached(Init(registryCapacity, n + 1)) && registryCapacity >= 2
    ensures reached(s) && s.registryCapacity == registryCapacity && s.ledgerCapacity == n + 1
    ensures |L.Unexpired(s.disk.rows, L.HorizonStart(0))| == n + 2
  {
    hide Closed, FillerRows;
    var disk := FillerRowsReached(reached, registryCapacity, n + 1, n);
    var s1 := BothCountedReached(reached, Start(registryCapacity, n + 1, disk), n);
    FillersAreStrangers(disk, n);
    var s2 := WriteReached(reached, WorkingCounts, s1, 0, FIRST);
    s := WriteReached(reached, WorkingCounts, s2, 1, OTHER);
    TwoRowsMore(disk, s.disk.rows, n);
  }

  /** Two admissions that each count before the other writes exceed the capacity although every count works, at any
      ledger capacity and with any registry that can hold both. */
  lemma ConcurrentAdmissionsExceedCapacity(registryCapacity: nat, ledgerCapacity: nat)
    requires registryCapacity >= 2 && ledgerCapacity >= 1
    ensures exists s ::
              && ReachableWith(WorkingCounts, s)
              && s.registryCapacity == registryCapacity && s.ledgerCapacity == ledgerCapacity
              && |L.Unexpired(s.disk.rows, L.HorizonStart(0))| == ledgerCapacity + 1
  {
    ReachableIsClosed(WorkingCounts);
    StartReached(WorkingCounts, registryCapacity, ledgerCapacity);
    var s := CrowdedRunReached(s => ReachableWith(WorkingCounts, s), registryCapacity, ledgerCapacity - 1);
  }
}
