/** How the orchestrator ends one workflow: cancel requests, the terminal reservation and the terminal transition race
    over `terminal_mutex_` and a few atomics. The history records what each of them did, in the order it took effect. */
module OrchestratorTerminal {
  import opened Common
  import opened Outcomes

  const ERROR_SHUTDOWN: uint16 := 205
  const ERROR_PRECONDITION: uint16 := 206
  const ERROR_CANCEL_UNCONFIRMED: uint16 := 207
  const ERROR_INTERNAL: uint16 := 208
  const ERROR_DEADLINE: uint16 := 209

  const FALLBACK: GoalResult := SafeStop(ERROR_INTERNAL)

  datatype Record =
    | CancelAnswered(accepted: bool)
    | Reserved(result: GoalResult, at: nat)
    | Took(result: GoalResult)

  /** Where a thread inside terminal() is. */
  datatype Pc =
    | Reserving(request: GoalResult)
    | Checking(result: GoalResult)
    | Transiting(result: GoalResult)
    | Failed
    | FallingBack
    | Concluding

  /** `winner` is the thread whose exchange of `terminal_started_` came first. */
  datatype State = State(
    cancelAccepted: bool, reserved: bool, winner: Option<int>, fallbackAttempted: bool, failed: bool,
    verdict: Option<GoalResult>, callers: map<int, Pc>, now: nat, history: seq<Record>)

  const INIT := State(false, false, None, false, false, None, map[], 0, [])

  datatype Event =
    | Tick(d: nat)
    | HandleCancel
    | CallTerminal(t: int, request: GoalResult)
    | Reserve(t: int)
    | CheckActive(t: int)
    | Transition(t: int, fate: Fate)
    | StartFallback(t: int)
    | FallbackAbort(t: int, fate: Fate)
    | Conclude(t: int)

  /** What the reservation commits: a success gives way to an accepted cancel and to the deadline. */
  function Commitment(request: GoalResult, cancelAccepted: bool, now: nat, deadline: nat): GoalResult {
    if request.code.Succeeded? && cancelAccepted then SafeStop(ERROR_INTERNAL)
    else if request.code.Succeeded? && now >= deadline then SafeStop(ERROR_DEADLINE)
    else request
  }

  function Answer(s: State): State {
    s.(cancelAccepted := s.cancelAccepted || !s.reserved, history := s.history + [CancelAnswered(!s.reserved)])
  }

  function TakeReservation(s: State, t: int, deadline: nat): State {
    if t in s.callers && s.callers[t].Reserving? then
      if s.reserved then s.(callers := s.callers - {t})
      else
        var result := Commitment(s.callers[t].request, s.cancelAccepted, s.now, deadline);
        s.(reserved := true, callers := s.callers[t := Checking(result)],
           history := s.history + [Reserved(result, s.now)])
    else s
  }

  /** A call of the goal handle. Nothing in this model refuses a second verdict: that none is ever attempted is proved
      of the code. */
  function Take(s: State, result: GoalResult, fate: Fate): State {
    if fate.ThrowsBefore? then s else s.(verdict := Some(result), history := s.history + [Took(result)])
  }

  /** The calling thread is done, or goes on in the handler of what the call threw. */
  function CallHandle(s: State, t: int, result: GoalResult, fate: Fate, handler: Pc): State
    requires t in s.callers
  {
    Take(s, result, fate).(callers := if fate.Returns? then s.callers - {t} else s.callers[t := handler])
  }

  function Step(s: State, e: Event, deadline: nat): State {
    match e
    case Tick(d) => s.(now := s.now + d)
    case HandleCancel => Answer(s)
    case CallTerminal(t, request) =>
      if s.winner.Some? then s else s.(winner := Some(t), callers := s.callers[t := Reserving(request)])
    case Reserve(t) => TakeReservation(s, t, deadline)
    case CheckActive(t) =>
      if t in s.callers && s.callers[t].Checking? then
        if s.verdict.Some? then s.(callers := s.callers - {t})
        else s.(callers := s.callers[t := Transiting(s.callers[t].result)])
      else s
    case Transition(t, fate) =>
      if t in s.callers && s.callers[t].Transiting? then
        CallHandle(s, t, s.callers[t].result, fate, Failed)
      else s
    case StartFallback(t) =>
      if t in s.callers && s.callers[t].Failed? then
        if s.verdict.None? && !s.fallbackAttempted then
          s.(fallbackAttempted := true, callers := s.callers[t := FallingBack])
        else s.(callers := s.callers[t := Concluding])
      else s
    case FallbackAbort(t, fate) =>
      if t in s.callers && s.callers[t].FallingBack? then CallHandle(s, t, FALLBACK, fate, Concluding) else s
    case Conclude(t) =>
      if t in s.callers && s.callers[t].Concluding? then
        s.(failed := s.failed || s.verdict.None?, callers := s.callers - {t})
      else s
  }

  function Run(s: State, events: seq<Event>, deadline: nat): State {
    if events == [] then s
    else Step(Run(s, events[..|events| - 1], deadline), events[|events| - 1], deadline)
  }

  function Accepts(h: seq<Record>): bool {
    h != [] && (h[|h| - 1] == CancelAnswered(true) || Accepts(h[..|h| - 1]))
  }

  function Reservation(h: seq<Record>): Option<GoalResult> {
    if h == [] then None
    else if h[|h| - 1].Reserved? then Some(h[|h| - 1].result)
    else Reservation(h[..|h| - 1])
  }

  function Verdict(h: seq<Record>): Option<GoalResult> {
    if h == [] then None
    else if h[|h| - 1].Took? then Some(h[|h| - 1].result)
    else Verdict(h[..|h| - 1])
  }

  /** What may follow history `h`. */
  predicate MayFollow(h: seq<Record>, r: Record, deadline: nat) {
    match r
    case CancelAnswered(accepted) => accepted == Reservation(h).None?
    case Reserved(result, at) =>
      Reservation(h).None? && (result.code.Succeeded? ==> !Accepts(h) && at < deadline)
    case Took(result) => Verdict(h).None? && (Some(result) == Reservation(h) || result == FALLBACK)
  }

  predicate Legal(h: seq<Record>, deadline: nat) {
    h != [] ==> Legal(h[..|h| - 1], deadline) && MayFollow(h[..|h| - 1], h[|h| - 1], deadline)
  }

  /** The places from which a thread may still call the goal handle without looking again. */
  predicate Undecided(pc: Pc) {
    pc.Reserving? || pc.Checking? || pc.Transiting? || pc.FallingBack?
  }

  /** The flags are digests of the history. */
  ghost predicate Digests(s: State, deadline: nat) {
    && Legal(s.history, deadline)
    && s.cancelAccepted == Accepts(s.history)
    && s.reserved == Reservation(s.history).Some?
    && s.verdict == Verdict(s.history)
  }

  /** There is one thread past the exchange, and it calls the goal handle only while there is no verdict. */
  ghost predicate Callers(s: State) {
    && (s.winner.None? ==> s.verdict.None?)
    && (forall t :: t in s.callers ==> s.winner == Some(t))
    && (forall t :: t in s.callers && (s.callers[t].Checking? || s.callers[t].Transiting?) ==>
          Some(s.callers[t].result) == Reservation(s.history))
    && (forall t :: t in s.callers && Undecided(s.callers[t]) ==> s.verdict.None?)
  }

  ghost predicate Inv(s: State, deadline: nat) {
    Digests(s, deadline) && Callers(s)
  }

  lemma Appended(h: seq<Record>, r: Record, deadline: nat)
    ensures Legal(h + [r], deadline) <==> Legal(h, deadline) && MayFollow(h, r, deadline)
    ensures Accepts(h + [r]) == (Accepts(h) || r == CancelAnswered(true))
    ensures Reservation(h + [r]) == if r.Reserved? then Some(r.result) else Reservation(h)
    ensures Verdict(h + [r]) == if r.Took? then Some(r.result) else Verdict(h)
  {
    assert (h + [r])[..|h|] == h;
  }

  predicate IsQuiet(e: Event) {
    e.Tick? || e.CallTerminal? || e.CheckActive? || e.StartFallback? || e.Conclude?
  }

  lemma QuietStepKeepsCallers(s: State, e: Event, deadline: nat)
    requires Callers(s) && IsQuiet(e)
    ensures var next := Step(s, e, deadline);
            && Callers(next)
            && next.history == s.history && next.verdict == s.verdict
            && next.cancelAccepted == s.cancelAccepted && next.reserved == s.reserved
  {
    hide TakeReservation, CallHandle, Answer, Reservation;
  }

  lemma AnswerKeepsInv(s: State, deadline: nat)
    requires Inv(s, deadline)
    ensures Inv(Answer(s), deadline)
  {
    Appended(s.history, CancelAnswered(!s.reserved), deadline);
  }

  lemma ReserveKeepsInv(s: State, t: int, deadline: nat)
    requires Inv(s, deadline) && t in s.callers && s.callers[t].Reserving?
    ensures Inv(TakeReservation(s, t, deadline), deadline)
  {
    var next := TakeReservation(s, t, deadline);
    if !s.reserved {
      var result := Commitment(s.callers[t].request, s.cancelAccepted, s.now, deadline);
      assert MayFollow(s.history, Reserved(result, s.now), deadline);
      Appended(s.history, Reserved(result, s.now), deadline);
    }
  }

  lemma CallHandleKeepsDigests(s: State, t: int, result: GoalResult, fate: Fate, handler: Pc, deadline: nat)
    requires Digests(s, deadline) && s.verdict.None? && t in s.callers
    requires Some(result) == Reservation(s.history) || result == FALLBACK
    ensures var next := CallHandle(s, t, result, fate, handler);
            Digests(next, deadline) && Reservation(next.history) == Reservation(s.history)
  {
    if !fate.ThrowsBefore? {
      assert MayFollow(s.history, Took(result), deadline);
      Appended(s.history, Took(result), deadline);
    }
  }

  lemma CallHandleKeepsInv(s: State, t: int, result: GoalResult, fate: Fate, handler: Pc, deadline: nat)
    requires Inv(s, deadline) && t in s.callers && Undecided(s.callers[t])
    requires Some(result) == Reservation(s.history) || result == FALLBACK
    requires handler.Failed? || handler.Concluding?
    ensures Inv(CallHandle(s, t, result, fate, handler), deadline)
  {
    CallHandleKeepsDigests(s, t, result, fate, handler, deadline);
    var next := CallHandle(s, t, result, fate, handler);
    forall u | u in next.callers ensures u == t && next.callers[u] == handler {
      assert u in s.callers;
    }
  }

  lemma {:induction false} EveryRunKeepsInv(events: seq<Event>, deadline: nat)
    ensures Inv(Run(INIT, events, deadline), deadline)
  {
    if events != [] {
      var s, e := Run(INIT, events[..|events| - 1], deadline), events[|events| - 1];
      EveryRunKeepsInv(events[..|events| - 1], deadline);
      match e {
        case HandleCancel => AnswerKeepsInv(s, deadline);
        case Reserve(t) =>
          if t in s.callers && s.callers[t].Reserving? { ReserveKeepsInv(s, t, deadline); }
        case Transition(t, fate) =>
          if t in s.callers && s.callers[t].Transiting? {
            CallHandleKeepsInv(s, t, s.callers[t].result, fate, Failed, deadline);
          }
        case FallbackAbort(t, fate) =>
          if t in s.callers && s.callers[t].FallingBack? {
            CallHandleKeepsInv(s, t, FALLBACK, fate, Concluding, deadline);
          }
        case _ => QuietStepKeepsCallers(s, e, deadline);
      }
    }
  }

  lemma {:induction false} LegalAt(h: seq<Record>, deadline: nat, j: nat)
    requires Legal(h, deadline) && j < |h|
    ensures MayFollow(h[..j], h[j], deadline)
  {
    if j < |h| - 1 {
      LegalAt(h[..|h| - 1], deadline, j);
      assert h[..|h| - 1][..j] == h[..j];
    }
  }

  lemma {:induction false} DigestsSeeEveryRecord(h: seq<Record>, i: nat)
    requires i < |h|
    ensures h[i] == CancelAnswered(true) ==> Accepts(h)
    ensures h[i].Reserved? ==> Reservation(h).Some?
    ensures h[i].Took? ==> Verdict(h).Some?
  {
    if i < |h| - 1 {
      DigestsSeeEveryRecord(h[..|h| - 1], i);
    }
  }

  lemma {:induction false} ReservationIsARecord(h: seq<Record>) returns (i: nat)
    requires Reservation(h).Some?
    ensures i < |h| && h[i].Reserved? && Reservation(h) == Some(h[i].result)
  {
    if h[|h| - 1].Reserved? {
      i := |h| - 1;
    } else {
      i := ReservationIsARecord(h[..|h| - 1]);
    }
  }

  /** No goal-handle call is ever made on a goal that already has a verdict, whatever throws and whoever races: this is
      why a goal gets one terminal transition at most. */
  lemma GoalHandleIsCalledWithoutVerdict(events: seq<Event>, deadline: nat, t: int)
    requires var s := Run(INIT, events, deadline);
             t in s.callers && (s.callers[t].Transiting? || s.callers[t].FallingBack?)
    ensures Run(INIT, events, deadline).verdict.None?
  {
    EveryRunKeepsInv(events, deadline);
  }

  /** The order in which things took effect, for every run: a cancel is accepted exactly when nothing is reserved yet,
      there is one reservation and one verdict at most, and a success is reserved neither after an accepted cancel nor
      at or past the deadline. */
  lemma CancelAndTerminalAreLinearised(events: seq<Event>, deadline: nat, i: nat, j: nat)
    requires i < j < |Run(INIT, events, deadline).history|
    ensures var h := Run(INIT, events, deadline).history;
            && (h[i].Reserved? && h[j].CancelAnswered? ==> !h[j].accepted)
            && (h[i] == CancelAnswered(true) && h[j].Reserved? ==> !h[j].result.code.Succeeded?)
            && !(h[i].Reserved? && h[j].Reserved?)
            && !(h[i].Took? && h[j].Took?)
            && (h[j].Reserved? && h[j].result.code.Succeeded? ==> h[j].at < deadline)
  {
    var h := Run(INIT, events, deadline).history;
    EveryRunKeepsInv(events, deadline);
    LegalAt(h, deadline, j);
    assert h[..j][i] == h[i];
    DigestsSeeEveryRecord(h[..j], i);
  }

  lemma {:induction false} VerdictIsReserved(h: seq<Record>, deadline: nat)
    requires Legal(h, deadline) && Verdict(h).Some?
    ensures Verdict(h) == Some(FALLBACK) || Verdict(h) == Reservation(h)
  {
    if !h[|h| - 1].Took? {
      VerdictIsReserved(h[..|h| - 1], deadline);
    }
  }

  /** A workflow whose cancel was answered ACCEPT, at any moment of the run, never ends SUCCEEDED; and a success takes
      effect only if it was reserved before the deadline. */
  lemma AcceptedCancelNeverSucceeds(events: seq<Event>, deadline: nat)
    ensures var s := Run(INIT, events, deadline);
            s.verdict.Some? && s.verdict.value.code.Succeeded? ==>
              && CancelAnswered(true) !in s.history
              && exists k: nat :: k < |s.history| && s.history[k].Reserved?
                   && Some(s.history[k].result) == s.verdict && s.history[k].at < deadline
  {
    var s := Run(INIT, events, deadline);
    var h := s.history;
    EveryRunKeepsInv(events, deadline);
    if s.verdict.Some? && s.verdict.value.code.Succeeded? {
      VerdictIsReserved(h, deadline);
      var k := ReservationIsARecord(h);
      LegalAt(h, deadline, k);
      forall i | 0 <= i < |h| ensures h[i] != CancelAnswered(true) {
        LegalAt(h, deadline, i);
        if i < k {
          assert h[..k][i] == h[i];
          DigestsSeeEveryRecord(h[..k], i);
        } else if k < i {
          assert h[..i][k] == h[k];
          DigestsSeeEveryRecord(h[..i], k);
        }
      }
    }
  }

  /** Every thread that enters terminal() asks for the same result. */
  ghost predicate Asks(events: seq<Event>, request: GoalResult) {
    forall i :: 0 <= i < |events| && events[i].CallTerminal? ==> events[i].request == request
  }

  predicate Commits(h: seq<Record>, request: GoalResult, deadline: nat) {
    h != [] ==>
      && Commits(h[..|h| - 1], request, deadline)
      && (h[|h| - 1].Reserved? ==>
            h[|h| - 1].result == Commitment(request, Accepts(h[..|h| - 1]), h[|h| - 1].at, deadline))
  }

  lemma CommitsAppend(h: seq<Record>, r: Record, request: GoalResult, deadline: nat)
    requires Commits(h, request, deadline)
    requires r.Reserved? ==> r.result == Commitment(request, Accepts(h), r.at, deadline)
    ensures Commits(h + [r], request, deadline)
  {
    assert (h + [r])[..|h|] == h;
  }

  ghost predicate WaitFor(callers: map<int, Pc>, request: GoalResult) {
    forall t :: t in callers && callers[t].Reserving? ==> callers[t].request == request
  }

  ghost predicate Requested(s: State, request: GoalResult, deadline: nat) {
    Commits(s.history, request, deadline) && WaitFor(s.callers, request)
  }

  lemma QuietStepKeepsRequests(s: State, e: Event, request: GoalResult, deadline: nat)
    requires WaitFor(s.callers, request) && IsQuiet(e)
    requires e.CallTerminal? ==> e.request == request
    ensures WaitFor(Step(s, e, deadline).callers, request)
  {
    hide TakeReservation, CallHandle, Answer;
  }

  lemma ReserveKeepsRequested(s: State, t: int, request: GoalResult, deadline: nat)
    requires Digests(s, deadline) && Requested(s, request, deadline)
    ensures Requested(TakeReservation(s, t, deadline), request, deadline)
  {
    if t in s.callers && s.callers[t].Reserving? {
      CommitsAppend(
        s.history, Reserved(Commitment(request, s.cancelAccepted, s.now, deadline), s.now), request, deadline);
    }
  }

  lemma CallHandleKeepsRequested(
      s: State, t: int, result: GoalResult, fate: Fate, handler: Pc, request: GoalResult, deadline: nat)
    requires Requested(s, request, deadline) && t in s.callers && !handler.Reserving?
    ensures Requested(CallHandle(s, t, result, fate, handler), request, deadline)
  {
    CommitsAppend(s.history, Took(result), request, deadline);
  }

  lemma StepKeepsRequested(s: State, e: Event, request: GoalResult, deadline: nat)
    requires Inv(s, deadline) && Requested(s, request, deadline)
    requires e.CallTerminal? ==> e.request == request
    ensures Requested(Step(s, e, deadline), request, deadline)
  {
    match e
    case HandleCancel => CommitsAppend(s.history, CancelAnswered(!s.reserved), request, deadline);
    case Reserve(t) => ReserveKeepsRequested(s, t, request, deadline);
    case Transition(t, fate) =>
      if t in s.callers && s.callers[t].Transiting? {
        CallHandleKeepsRequested(s, t, s.callers[t].result, fate, Failed, request, deadline);
      }
    case FallbackAbort(t, fate) =>
      if t in s.callers && s.callers[t].FallingBack? {
        CallHandleKeepsRequested(s, t, FALLBACK, fate, Concluding, request, deadline);
      }
    case _ =>
      QuietStepKeepsCallers(s, e, deadline);
      QuietStepKeepsRequests(s, e, request, deadline);
  }

  lemma {:induction false} EveryRunKeepsRequested(events: seq<Event>, request: GoalResult, deadline: nat)
    requires Asks(events, request)
    ensures Requested(Run(INIT, events, deadline), request, deadline)
  {
    if events != [] {
      var before, e := events[..|events| - 1], events[|events| - 1];
      EveryRunKeepsInv(before, deadline);
      EveryRunKeepsRequested(before, request, deadline);
      StepKeepsRequested(Run(INIT, before, deadline), e, request, deadline);
    }
  }

  lemma {:induction false} ReservationIsCommitment(h: seq<Record>, request: GoalResult, deadline: nat)
    returns (accepted: bool, at: nat)
    requires Commits(h, request, deadline) && Reservation(h).Some?
    ensures Reservation(h) == Some(Commitment(request, accepted, at, deadline))
    ensures accepted ==> Accepts(h)
  {
    if h[|h| - 1].Reserved? {
      accepted, at := Accepts(h[..|h| - 1]), h[|h| - 1].at;
    } else {
      accepted, at := ReservationIsCommitment(h[..|h| - 1], request, deadline);
    }
  }

  lemma {:induction false} AcceptIsARecord(h: seq<Record>)
    requires Accepts(h)
    ensures CancelAnswered(true) in h
  {
    if h[|h| - 1] != CancelAnswered(true) {
      AcceptIsARecord(h[..|h| - 1]);
    }
  }

  /** Whatever races, a workflow's verdict is the fallback abort or what its request committed to at some time, given
      the cancels answered by then. */
  lemma VerdictIsCommitment(events: seq<Event>, request: GoalResult, deadline: nat) returns (accepted: bool, at: nat)
    requires Asks(events, request) && Run(INIT, events, deadline).verdict.Some?
    ensures var s := Run(INIT, events, deadline);
            && (s.verdict == Some(FALLBACK) || s.verdict == Some(Commitment(request, accepted, at, deadline)))
            && (accepted ==> CancelAnswered(true) in s.history)
  {
    var s := Run(INIT, events, deadline);
    EveryRunKeepsInv(events, deadline);
    EveryRunKeepsRequested(events, request, deadline);
    VerdictIsReserved(s.history, deadline);
    accepted, at := false, 0;
    if Reservation(s.history).Some? {
      accepted, at := ReservationIsCommitment(s.history, request, deadline);
      if accepted {
        AcceptIsARecord(s.history);
      }
    }
  }

  lemma AcceptsExactlyWhenRecorded(h: seq<Record>)
    ensures Accepts(h) <==> CancelAnswered(true) in h
  {
    if Accepts(h) {
      AcceptIsARecord(h);
    }
    if CancelAnswered(true) in h {
      var i :| 0 <= i < |h| && h[i] == CancelAnswered(true);
      DigestsSeeEveryRecord(h, i);
    }
  }

  lemma {:induction false} CommitsAt(h: seq<Record>, request: GoalResult, deadline: nat, k: nat)
    requires Commits(h, request, deadline) && k < |h| && h[k].Reserved?
    ensures h[k].result == Commitment(request, Accepts(h[..k]), h[k].at, deadline)
  {
    if k < |h| - 1 {
      CommitsAt(h[..|h| - 1], request, deadline, k);
      assert h[..|h| - 1][..k] == h[..k];
    }
  }

  /** What is reserved, in every run: the worker's request, except that a success gives way to a cancel answered ACCEPT
      before (208) and, without one, to the deadline (209). */
  lemma ReservationFollowsRequest(events: seq<Event>, request: GoalResult, deadline: nat, k: nat)
    requires Asks(events, request)
    requires k < |Run(INIT, events, deadline).history| && Run(INIT, events, deadline).history[k].Reserved?
    ensures var h := Run(INIT, events, deadline).history;
            h[k].result == if !request.code.Succeeded? then request
                           else if CancelAnswered(true) in h[..k] then GoalResult(Aborted, SAFE_STOP, 208)
                           else if h[k].at >= deadline then GoalResult(Aborted, SAFE_STOP, 209)
                           else request
  {
    var h := Run(INIT, events, deadline).history;
    EveryRunKeepsRequested(events, request, deadline);
    CommitsAt(h, request, deadline, k);
    AcceptsExactlyWhenRecorded(h[..k]);
  }

  function Ticks(events: seq<Event>): nat {
    if events == [] then 0
    else Ticks(events[..|events| - 1]) + if events[|events| - 1].Tick? then events[|events| - 1].d else 0
  }

  lemma StepKeepsTimeAndWinner(s: State, e: Event, deadline: nat)
    ensures var next := Step(s, e, deadline);
            && next.now == s.now + (if e.Tick? then e.d else 0)
            && next.winner == if s.winner.None? && e.CallTerminal? then Some(e.t) else s.winner
  {
    hide Commitment;
  }

  lemma {:induction false} ClockIsTicks(events: seq<Event>, deadline: nat)
    ensures Run(INIT, events, deadline).now == Ticks(events)
  {
    hide Step;
    if events != [] {
      var n := |events| - 1;
      ClockIsTicks(events[..n], deadline);
      StepKeepsTimeAndWinner(Run(INIT, events[..n], deadline), events[n], deadline);
    }
  }

  /** A reservation carries the time at which it is made. */
  lemma ReservedNow(events: seq<Event>, t: int, deadline: nat)
    ensures var s := Run(INIT, events, deadline);
            var next := Run(INIT, events + [Reserve(t)], deadline);
            next.history == s.history
            || (|next.history| == |s.history| + 1 && next.history[|s.history|].Reserved?
                && next.history[|s.history|].at == Ticks(events))
  {
    assert (events + [Reserve(t)])[..|events|] == events;
    ClockIsTicks(events, deadline);
  }

  // Every workflow ends

  /** What the thread at `pc` does next, whatever becomes of a call it makes. */
  function NextOf(t: int, pc: Pc, fate: Fate): Event {
    match pc
    case Reserving(_) => Reserve(t)
    case Checking(_) => CheckActive(t)
    case Transiting(_) => Transition(t, fate)
    case Failed => StartFallback(t)
    case FallingBack => FallbackAbort(t, fate)
    case Concluding => Conclude(t)
  }

  function StepsLeft(pc: Pc): nat {
    match pc
    case Reserving(_) => 6
    case Checking(_) => 5
    case Transiting(_) => 4
    case Failed => 3
    case FallingBack => 2
    case Concluding => 1
  }

  /** A thread inside terminal() is never stuck and never goes round: it leaves after at most six steps. */
  lemma CallerAdvances(s: State, t: int, fate: Fate, deadline: nat)
    requires t in s.callers
    ensures var next := Step(s, NextOf(t, s.callers[t], fate), deadline);
            t in next.callers ==> StepsLeft(next.callers[t]) < StepsLeft(s.callers[t])
  {
    hide Commitment, Take;
    match s.callers[t]
    case Reserving(_) =>
    case Transiting(result) => assert Step(s, Transition(t, fate), deadline) == CallHandle(s, t, result, fate, Failed);
    case FallingBack =>
      assert Step(s, FallbackAbort(t, fate), deadline) == CallHandle(s, t, FALLBACK, fate, Concluding);
    case _ =>
  }

  predicate Threw(e: Event) {
    e.Transition? && e.fate.ThrowsBefore?
  }

  predicate FallbackThrew(e: Event) {
    e.FallbackAbort? && e.fate.ThrowsBefore?
  }

  /** `threw` and `fallbackThrew` say whether such a call occurred in the run so far. */
  ghost predicate Progresses(s: State, threw: bool, fallbackThrew: bool) {
    && (s.winner.None? ==> !s.reserved && !s.fallbackAttempted)
    && (s.verdict.Some? ==> s.verdict == Reservation(s.history) || threw)
    && (s.winner.Some? ==>
          if s.winner.value in s.callers then
            match s.callers[s.winner.value]
            case Reserving(_) => !s.reserved && !s.fallbackAttempted
            case Checking(_) => !s.fallbackAttempted
            case Transiting(_) => !s.fallbackAttempted
            case Failed => !s.fallbackAttempted && (s.verdict.None? ==> threw)
            case FallingBack => threw
            case Concluding => s.verdict.None? ==> threw && fallbackThrew
          else s.verdict.Some? || (s.failed && threw && fallbackThrew))
  }

  lemma TransitionProgresses(s: State, t: int, fate: Fate, deadline: nat, threw: bool, fallbackThrew: bool)
    requires Inv(s, deadline) && Progresses(s, threw, fallbackThrew) && t in s.callers && s.callers[t].Transiting?
    ensures Progresses(CallHandle(s, t, s.callers[t].result, fate, Failed), threw || fate.ThrowsBefore?, fallbackThrew)
  {
    hide Legal, Accepts, Verdict;
    Appended(s.history, Took(s.callers[t].result), deadline);
  }

  lemma FallbackProgresses(s: State, t: int, fate: Fate, deadline: nat, threw: bool, fallbackThrew: bool)
    requires Inv(s, deadline) && Progresses(s, threw, fallbackThrew) && t in s.callers && s.callers[t].FallingBack?
    ensures Progresses(
              CallHandle(s, t, FALLBACK, fate, Concluding), threw, fallbackThrew || fate.ThrowsBefore?)
  {
    hide Legal, Accepts, Verdict;
    Appended(s.history, Took(FALLBACK), deadline);
  }

  lemma ReserveProgresses(s: State, t: int, deadline: nat, threw: bool, fallbackThrew: bool)
    requires Inv(s, deadline) && Progresses(s, threw, fallbackThrew)
    ensures Progresses(TakeReservation(s, t, deadline), threw, fallbackThrew)
  {
    hide Legal, Accepts, Verdict;
    if t in s.callers && s.callers[t].Reserving? {
      var result := Commitment(s.callers[t].request, s.cancelAccepted, s.now, deadline);
      Appended(s.history, Reserved(result, s.now), deadline);
    }
  }

  lemma AnswerProgresses(s: State, deadline: nat, threw: bool, fallbackThrew: bool)
    requires Inv(s, deadline) && Progresses(s, threw, fallbackThrew)
    ensures Progresses(Answer(s), threw, fallbackThrew)
  {
    hide Legal, Accepts, Verdict;
    Appended(s.history, CancelAnswered(!s.reserved), deadline);
  }

  lemma QuietStepProgresses(s: State, e: Event, deadline: nat, threw: bool, fallbackThrew: bool)
    requires Inv(s, deadline) && Progresses(s, threw, fallbackThrew) && IsQuiet(e)
    ensures Progresses(Step(s, e, deadline), threw, fallbackThrew)
  {
    hide Legal, Accepts, Verdict, Reservation, TakeReservation, CallHandle, Answer;
  }

  lemma MoreMayHaveThrown(s: State, threw: bool, fallbackThrew: bool, e: Event)
    requires Progresses(s, threw, fallbackThrew)
    ensures Progresses(s, threw || Threw(e), fallbackThrew || FallbackThrew(e))
  {
  }

  lemma StepProgresses(s: State, e: Event, deadline: nat, threw: bool, fallbackThrew: bool)
    requires Inv(s, deadline) && Progresses(s, threw, fallbackThrew)
    ensures Progresses(Step(s, e, deadline), threw || Threw(e), fallbackThrew || FallbackThrew(e))
  {
    hide Inv, Progresses, Legal, Accepts, Verdict, Reservation, TakeReservation, CallHandle;
    MoreMayHaveThrown(s, threw, fallbackThrew, e);
    match e
    case Transition(t, fate) =>
      if t in s.callers && s.callers[t].Transiting? {
        TransitionProgresses(s, t, fate, deadline, threw, fallbackThrew);
      }
    case FallbackAbort(t, fate) =>
      if t in s.callers && s.callers[t].FallingBack? {
        FallbackProgresses(s, t, fate, deadline, threw, fallbackThrew);
      }
    case HandleCancel => AnswerProgresses(s, deadline, threw, fallbackThrew);
    case Reserve(t) => ReserveProgresses(s, t, deadline, threw, fallbackThrew);
    case _ => QuietStepProgresses(s, e, deadline, threw, fallbackThrew);
  }

  ghost predicate SomeThrew(events: seq<Event>) {
    exists i :: 0 <= i < |events| && Threw(events[i])
  }

  ghost predicate SomeFallbackThrew(events: seq<Event>) {
    exists i :: 0 <= i < |events| && FallbackThrew(events[i])
  }

  lemma ThrewBefore(events: seq<Event>)
    requires events != []
    ensures var n := |events| - 1;
            && (SomeThrew(events) <==> SomeThrew(events[..n]) || Threw(events[n]))
            && (SomeFallbackThrew(events) <==> SomeFallbackThrew(events[..n]) || FallbackThrew(events[n]))
  {
    hide Threw, FallbackThrew;
    var n := |events| - 1;
    assert forall i :: 0 <= i < n ==> events[..n][i] == events[i];
  }

  lemma StartProgresses()
    ensures Progresses(INIT, false, false)
  {
  }

  lemma {:induction false} EveryRunProgresses(events: seq<Event>, deadline: nat)
    ensures Progresses(Run(INIT, events, deadline), SomeThrew(events), SomeFallbackThrew(events))
  {
    hide Step, Inv, Progresses, Threw, FallbackThrew;
    if events == [] {
      StartProgresses();
    } else {
      var n := |events| - 1;
      EveryRunProgresses(events[..n], deadline);
      EveryRunKeepsInv(events[..n], deadline);
      StepProgresses(Run(INIT, events[..n], deadline), events[n], deadline, SomeThrew(events[..n]),
        SomeFallbackThrew(events[..n]));
      ThrewBefore(events);
    }
  }

  /** Every workflow whose thread has left terminal() has a verdict, unless both goal-handle calls threw before they
      took effect, which is then on record; and the verdict is the reserved result unless the first call threw so. */
  lemma WorkflowEndsWithVerdict(events: seq<Event>, deadline: nat, t: int)
    requires Run(INIT, events, deadline).winner == Some(t) && t !in Run(INIT, events, deadline).callers
    ensures var s := Run(INIT, events, deadline);
            || (s.verdict.Some? && s.verdict == Reservation(s.history))
            || SomeThrew(events)
    ensures var s := Run(INIT, events, deadline);
            s.verdict.None? ==> s.failed && SomeFallbackThrew(events)
  {
    EveryRunProgresses(events, deadline);
  }

  /** The first thread that calls terminal() is the one that goes in. */
  lemma {:induction false} FirstCallerWins(events: seq<Event>, deadline: nat)
    ensures Run(INIT, events, deadline).winner.Some? <==> exists i :: 0 <= i < |events| && events[i].CallTerminal?
  {
    hide Step;
    if events != [] {
      var n := |events| - 1;
      FirstCallerWins(events[..n], deadline);
      StepKeepsTimeAndWinner(Run(INIT, events[..n], deadline), events[n], deadline);
      assert forall i :: 0 <= i < n ==> events[..n][i] == events[i];
    }
  }

  /** The verdict one undisturbed call gives: the reserved result, the fallback abort, or nothing if both throw
      early. */
  function CallVerdict(result: GoalResult, fate: Fate, fallbackFate: Fate): Option<GoalResult> {
    if !fate.ThrowsBefore? then Some(result)
    else if !fallbackFate.ThrowsBefore? then Some(FALLBACK)
    else None
  }

  function TookRecords(verdict: Option<GoalResult>): seq<Record> {
    match verdict
    case None => []
    case Some(result) => [Took(result)]
  }

  class WorkflowTerminal {
    var cancelAccepted: bool
    var reserved: bool
    var started: bool
    var fallbackAttempted: bool
    var failed: bool
    var verdict: Option<GoalResult>
    var deadline: nat
    var history: seq<Record>

    ghost predicate Valid()
      reads this
    {
      && Legal(history, deadline)
      && cancelAccepted == Accepts(history)
      && reserved == Reservation(history).Some?
      && verdict == Verdict(history)
      && (!started ==> !reserved && !fallbackAttempted && !failed)
    }

    /** What handle_goal resets for an accepted goal. */
    constructor (deadline: nat)
      ensures Valid() && !started && history == [] && this.deadline == deadline
    {
      cancelAccepted, reserved, started, fallbackAttempted, failed := false, false, false, false, false;
      verdict, history := None, [];
      this.deadline := deadline;
    }

    method HandleCancel() returns (accepted: bool)
      requires Valid()
      modifies this`cancelAccepted, this`history
      ensures Valid()
      ensures accepted <==> Reservation(old(history)).None?
      ensures history == old(history) + [CancelAnswered(accepted)]
    {
      Appended(history, CancelAnswered(!reserved), deadline);
      history := history + [CancelAnswered(!reserved)];
      if reserved {
        return false;
      }
      cancelAccepted := true;
      return true;
    }

    /** The critical section of terminal(). */
    method TryReserve(request: GoalResult, now: nat) returns (result: GoalResult)
      requires Valid() && started && !reserved
      modifies this`reserved, this`history
      ensures Valid() && reserved
      ensures result == Commitment(request, Accepts(old(history)), now, deadline)
      ensures result == if !request.code.Succeeded? then request
                        else if CancelAnswered(true) in old(history) then GoalResult(Aborted, SAFE_STOP, 208)
                        else if now >= deadline then GoalResult(Aborted, SAFE_STOP, 209)
                        else request
      ensures history == old(history) + [Reserved(result, now)]
    {
      AcceptsExactlyWhenRecorded(history);
      result := request;
      if request.code == Succeeded && cancelAccepted {
        result := SafeStop(ERROR_INTERNAL);
      } else if request.code == Succeeded && now >= deadline {
        result := SafeStop(ERROR_DEADLINE);
      }
      var record := Reserved(result, now);
      assert MayFollow(history, record, deadline);
      Appended(history, record, deadline);
      reserved, history := true, history + [record];
    }

    /** A call of the goal handle. */
    method Transit(result: GoalResult, fate: Fate) returns (threw: bool)
      requires Valid() && started && verdict == None
      requires Some(result) == Reservation(history) || result == FALLBACK
      modifies this`verdict, this`history
      ensures Valid()
      ensures threw == !fate.Returns?
      ensures verdict == if fate.ThrowsBefore? then None else Some(result)
      ensures history == old(history) + if fate.ThrowsBefore? then [] else [Took(result)]
    {
      if !fate.ThrowsBefore? {
        Appended(history, Took(result), deadline);
        verdict, history := Some(result), history + [Took(result)];
      }
      threw := !fate.Returns?;
    }

    /** Only the first call acts; it reports whether the goal ended up with a verdict. */
    method Terminal(request: GoalResult, now: nat, fate: Fate, fallbackFate: Fate) returns (done: bool)
      requires Valid()
      modifies this
      ensures Valid() && started && deadline == old(deadline)
      ensures old(started) ==> done == !failed && failed == old(failed) && history == old(history)
      ensures !old(started) ==>
                var result := Commitment(request, Accepts(old(history)), now, deadline);
                && verdict == (if old(verdict).Some? then old(verdict) else CallVerdict(result, fate, fallbackFate))
                && history == old(history) + [Reserved(result, now)]
                              + (if old(verdict).Some? then [] else TookRecords(verdict))
                && done == verdict.Some? == !failed
      ensures !old(started) && old(verdict).None? && !fate.ThrowsBefore? ==>
                verdict == Some(if !request.code.Succeeded? then request
                                else if CancelAnswered(true) in old(history) then GoalResult(Aborted, SAFE_STOP, 208)
                                else if now >= deadline then GoalResult(Aborted, SAFE_STOP, 209)
                                else request)
      ensures !old(started) && old(verdict).None? && fate.ThrowsBefore? ==>
                verdict == if fallbackFate.ThrowsBefore? then None else Some(GoalResult(Aborted, SAFE_STOP, 208))
    {
      if started {
        return !failed;
      }
      started := true;
      var result := TryReserve(request, now);
      if verdict != None {
        return true;
      }
      var threw := Transit(result, fate);
      if !threw {
        return true;
      }
      if verdict == None && !fallbackAttempted {
        fallbackAttempted := true;
        threw := Transit(FALLBACK, fallbackFate);
        if !threw {
          return true;
        }
      }
      if verdict == None {
        failed := true;
        return false;
      }
      return true;
    }
  }
}
