/** Cancelling the child task: the halting tree thread and the goal-response callback share `WorkflowState`. */
module OrchestratorCancel {
  import opened Common
  import opened CancelHandshake

  const HALTER: int := 0
  const CALLBACK: int := 1

  /** Where onHalted stands. */
  datatype Halt = Idle | AwaitResponse | Looping | Dispatching | AwaitChild | Returned

  datatype State = State(
    responseReceived: bool, hasHandle: bool, hasResult: bool, haltRequested: bool,
    cancelInFlight: bool, cancelDispatched: bool, cancelTimedOut: bool,
    halt: Halt, dispatching: set<int>, attempts: seq<bool>)

  const INIT := State(false, false, false, false, false, false, false, Idle, {}, [])

  datatype Event =
    | HaltTree
    | ResponseSeen
    | ResponseTimeout
    | LoopPass(expired: bool)
    | InFlightTimeout
    | ChildTimeout
    | GoalResponse(accepted: bool)
    | DispatchReturns(t: int, ok: bool)
    | Result

  /** Where onHalted goes once its first wait is over. */
  function AfterResponse(s: State): Halt {
    if s.hasResult || !s.hasHandle then Returned else Looping
  }

  function Step(s: State, e: Event): State {
    match e
    case HaltTree =>
      if !s.halt.Idle? then s
      else
        s.(haltRequested := true,
           halt := if s.hasResult || s.responseReceived then AfterResponse(s) else AwaitResponse)
    case ResponseSeen =>
      if s.halt.AwaitResponse? && (s.hasResult || s.responseReceived) then s.(halt := AfterResponse(s)) else s
    case ResponseTimeout =>
      if s.halt.AwaitResponse? && !s.hasResult && !s.responseReceived then
        s.(cancelTimedOut := true, halt := Returned)
      else s
    case LoopPass(expired) =>
      if !s.halt.Looping? then s
      else if s.hasResult || s.cancelDispatched then s.(halt := AwaitChild)
      else if s.cancelInFlight then s
      else if expired then s.(cancelTimedOut := true, halt := Returned)
      else s.(cancelInFlight := true, halt := Dispatching, dispatching := s.dispatching + {HALTER})
    case InFlightTimeout =>
      if s.halt.Looping? && !s.hasResult && !s.cancelDispatched && s.cancelInFlight then
        s.(cancelTimedOut := true, halt := Returned)
      else s
    case ChildTimeout =>
      if s.halt.AwaitChild? then s.(cancelTimedOut := s.cancelTimedOut || !s.hasResult, halt := Returned) else s
    case GoalResponse(accepted) =>
      if s.responseReceived then s
      else
        var answered := s.(responseReceived := true, hasHandle := accepted);
        if accepted && s.haltRequested && !s.cancelDispatched && !s.cancelInFlight then
          answered.(cancelInFlight := true, dispatching := s.dispatching + {CALLBACK})
        else answered
    case DispatchReturns(t, ok) =>
      if t !in s.dispatching then s
      else
        s.(cancelInFlight := false, cancelDispatched := ok, dispatching := s.dispatching - {t},
           attempts := s.attempts + [ok], halt := if t == HALTER then Looping else s.halt)
    case Result => s.(hasResult := true)
  }

  function Run(s: State, events: seq<Event>): State {
    Fold(Step, s, events)
  }

  function Actions(s: State, e: Event): seq<Action> {
    match e
    case HaltTree => [Request(HALTER), Drop(HALTER)]
    case ResponseSeen => if s.hasResult || !s.hasHandle then [] else [Retry(HALTER)]
    case LoopPass(expired) =>
      if s.hasResult || s.cancelDispatched then [Drop(HALTER)]
      else if expired then [GiveUp(HALTER)] else [Take(HALTER)]
    case ResponseTimeout | InFlightTimeout | ChildTimeout => [GiveUp(HALTER)]
    case GoalResponse(accepted) => [Respond(CALLBACK, accepted), Take(CALLBACK), Drop(CALLBACK)]
    case DispatchReturns(t, ok) =>
      if t == HALTER then [if ok then Succeed(t) else Throw(t), Retry(HALTER)]
      else [if ok then Succeed(t) else Throw(t)]
    case Result => [Finish]
  }

  ghost predicate Simulates(h: Handshake, s: State) {
    && h.requested == s.haltRequested == !s.halt.Idle?
    && h.handle == (if !s.responseReceived then Unknown else if s.hasHandle then Known else RefusedHandle)
    && (s.hasHandle ==> s.responseReceived)
    && h.live == !s.hasResult
    && h.committed == (if s.halt.Looping? then {HALTER} else {})
    && (s.halt.Looping? || s.halt.Dispatching? ==> s.hasHandle)
    && (s.halt.AwaitResponse? ==> HALTER !in s.dispatching)
    && (s.halt.Dispatching? <==> HALTER in s.dispatching)
    && (s.halt.Idle? ==> h.token.Free?)
    && s.cancelInFlight == h.token.Held?
    && s.cancelDispatched == h.token.Spent?
    && s.dispatching == (if h.token.Held? then {h.token.t} else {})
    && h.successes == Successes(s.attempts)
    && (h.lastThrew ==> LastFailed(s.attempts))
    && (h.gaveUp ==> s.cancelTimedOut || s.hasResult)
  }

  ghost predicate Inv(s: State) {
    exists h :: Simulates(h, s) && Safe(h)
  }

  lemma SimulateWaits(h: Handshake, s: State, e: Event)
    requires Simulates(h, s) && Safe(h) && Step(s, e) != s
    requires e.HaltTree? || e.ResponseSeen? || e.ResponseTimeout? || e.InFlightTimeout? || e.ChildTimeout?
    ensures Simulates(ActAll(h, Actions(s, e)), Step(s, e))
  {
    match e
    case HaltTree => Two(h, Request(HALTER), Drop(HALTER));
    case ResponseSeen => One(h, Retry(HALTER));
    case _ => One(h, GiveUp(HALTER));
  }

  lemma SimulateLoop(h: Handshake, s: State, expired: bool)
    requires Simulates(h, s) && Safe(h) && Step(s, LoopPass(expired)) != s
    ensures Simulates(ActAll(h, Actions(s, LoopPass(expired))), Step(s, LoopPass(expired)))
  {
    One(h, Drop(HALTER));
    One(h, GiveUp(HALTER));
    One(h, Take(HALTER));
  }

  lemma SimulateResponse(h: Handshake, s: State, accepted: bool)
    requires Simulates(h, s) && Safe(h) && !s.responseReceived
    ensures Simulates(ActAll(h, Actions(s, GoalResponse(accepted))), Step(s, GoalResponse(accepted)))
  {
    Three(h, Respond(CALLBACK, accepted), Take(CALLBACK), Drop(CALLBACK));
  }

  lemma SimulateHalterReturn(h: Handshake, s: State, ok: bool)
    requires Simulates(h, s) && Safe(h) && HALTER in s.dispatching
    ensures var e := DispatchReturns(HALTER, ok);
            Simulates(ActAll(h, Actions(s, e)), Step(s, e))
  {
    Logged(s.attempts, ok);
    Two(h, if ok then Succeed(HALTER) else Throw(HALTER), Retry(HALTER));
  }

  lemma SimulateCallbackReturn(h: Handshake, s: State, t: int, ok: bool)
    requires Simulates(h, s) && Safe(h) && t in s.dispatching && t != HALTER
    ensures var e := DispatchReturns(t, ok);
            Simulates(ActAll(h, Actions(s, e)), Step(s, e))
  {
    Logged(s.attempts, ok);
    One(h, if ok then Succeed(t) else Throw(t));
  }

  lemma StepKeepsInv(s: State, e: Event)
    requires Inv(s)
    ensures Inv(Step(s, e))
  {
    var h :| Simulates(h, s) && Safe(h);
    if Step(s, e) != s {
      match e {
        case LoopPass(expired) => SimulateLoop(h, s, expired);
        case GoalResponse(accepted) => SimulateResponse(h, s, accepted);
        case DispatchReturns(t, ok) =>
          if t == HALTER {
            SimulateHalterReturn(h, s, ok);
          } else {
            SimulateCallbackReturn(h, s, t, ok);
          }
        case Result => One(h, Finish);
        case _ => SimulateWaits(h, s, e);
      }
      ActAllKeepsSafe(h, Actions(s, e));
    }
  }

  lemma EveryRunKeepsInv(events: seq<Event>)
    ensures Inv(Run(INIT, events))
  {
    assert Simulates(START, INIT);
    forall s, e | Inv(s) ensures Inv(Step(s, e)) {
      StepKeepsInv(s, e);
    }
    FoldKeeps(s => Inv(s), Step, INIT, events);
  }

  ghost predicate Reachable(s: State) {
    exists events: seq<Event> :: s == Run(INIT, events)
  }

  /** Whether the executor's answer, the first one to arrive, accepted the task. */
  function FirstAnswer(events: seq<Event>): Option<bool> {
    if events == [] then None
    else
      var earlier, last := FirstAnswer(events[..|events| - 1]), events[|events| - 1];
      if earlier.None? && last.GoalResponse? then Some(last.accepted) else earlier
  }

  /** A wait that may run out. */
  predicate RunsOut(e: Event) {
    e.ResponseTimeout? || e == LoopPass(true) || e.InFlightTimeout? || e.ChildTimeout?
  }

  predicate HalterKnown(s: State) {
    && (s.halt.Idle? <==> !s.haltRequested)
    && (s.halt.Dispatching? <==> HALTER in s.dispatching)
  }

  /** What one event adds to what the flags remember. */
  lemma StepRemembers(s: State, e: Event)
    requires HalterKnown(s)
    ensures var t := Step(s, e);
            && HalterKnown(t)
            && (t.haltRequested <==> s.haltRequested || e.HaltTree?)
            && (t.hasResult <==> s.hasResult || e.Result?)
            && (t.responseReceived <==> s.responseReceived || e.GoalResponse?)
            && t.hasHandle == (if e.GoalResponse? && !s.responseReceived then e.accepted else s.hasHandle)
            && (t.cancelTimedOut ==> s.cancelTimedOut || RunsOut(e))
  {
    if e.DispatchReturns? && e.t in s.dispatching && e.t != HALTER {
      assert HALTER in s.dispatching - {e.t} <==> HALTER in s.dispatching;
    }
  }

  lemma StartIsKnown()
    ensures HalterKnown(INIT)
  {
  }

  /** Nothing that happened is forgotten, and a timeout is recorded only if a wait ran out. */
  lemma {:induction false} FlagsFollowEvents(events: seq<Event>)
    ensures var s := Run(INIT, events);
            && HalterKnown(s)
            && (s.haltRequested <==> HaltTree in events)
            && (s.hasResult <==> Result in events)
            && (s.responseReceived <==> FirstAnswer(events).Some?)
            && (s.hasHandle <==> FirstAnswer(events) == Some(true))
            && (s.cancelTimedOut ==> exists i :: 0 <= i < |events| && RunsOut(events[i]))
  {
    hide Step, RunsOut, HalterKnown;
    if events == [] {
      StartIsKnown();
    } else {
      var n := |events| - 1;
      FlagsFollowEvents(events[..n]);
      StepRemembers(Run(INIT, events[..n]), events[n]);
      assert events == events[..n] + [events[n]];
      assert Run(INIT, events) == Step(Run(INIT, events[..n]), events[n]);
      assert forall i :: 0 <= i < n ==> events[..n][i] == events[i];
    }
  }

  /** In every interleaving: at most one dispatch is in flight and at most one ever succeeds; once the tree was halted
      and the executor has accepted the task, in whichever order, the cancel of the live child is being dispatched,
      about to be, done, or has recorded a failed attempt or a timeout. */
  lemma NoLostAndNoDoubleCancel(events: seq<Event>)
    ensures var s := Run(INIT, events);
            && (forall t, u :: t in s.dispatching && u in s.dispatching ==> t == u)
            && Successes(s.attempts) <= 1
            && (Successes(s.attempts) == 1 <==> s.cancelDispatched)
            && (HaltTree in events && FirstAnswer(events) == Some(true) && Result !in events ==>
                  s.dispatching != {} || s.halt.Looping? || s.cancelDispatched
                  || LastFailed(s.attempts) || s.cancelTimedOut)
  {
    EveryRunKeepsInv(events);
    FlagsFollowEvents(events);
  }

  ghost predicate HaltedHonestly(s: State) {
    && (s.halt.Returned? ==> s.hasResult || (s.responseReceived && !s.hasHandle) || s.cancelTimedOut)
    && (s.halt.AwaitChild? ==> s.hasResult || s.cancelDispatched)
    && (s.halt.Looping? || s.halt.Dispatching? ==> s.responseReceived)
    && (s.hasHandle ==> s.responseReceived)
    && (s.cancelInFlight ==> s.dispatching != {})
  }

  lemma DispatchedIsDone(events: seq<Event>)
    ensures var s := Run(INIT, events); s.cancelDispatched ==> s.dispatching == {}
  {
    EveryRunKeepsInv(events);
  }

  lemma StepKeepsHonest(s: State, e: Event)
    requires HaltedHonestly(s) && HalterKnown(s) && (s.cancelDispatched ==> s.dispatching == {})
    ensures HaltedHonestly(Step(s, e))
  {
  }

  /** onHalted returns only once the child has ended or was refused, unless the timeout is on record; it waits for the
      child's end only once the cancel was dispatched or the child has ended. */
  lemma {:induction false} HaltReturnsHonestly(events: seq<Event>)
    ensures var s := Run(INIT, events);
            && (s.halt.Returned? ==> s.hasResult || FirstAnswer(events) == Some(false) || s.cancelTimedOut)
            && (s.halt.AwaitChild? ==> s.hasResult || s.cancelDispatched)
    ensures HaltedHonestly(Run(INIT, events))
  {
    hide Step, HalterKnown;
    FlagsFollowEvents(events);
    var answer := FirstAnswer(events);
    assert answer.Some? && !answer.value ==> answer == Some(false);
    if events != [] {
      var n := |events| - 1;
      HaltReturnsHonestly(events[..n]);
      FlagsFollowEvents(events[..n]);
      DispatchedIsDone(events[..n]);
      StepKeepsHonest(Run(INIT, events[..n]), events[n]);
      assert Run(INIT, events) == Step(Run(INIT, events[..n]), events[n]);
      assert HaltedHonestly(Run(INIT, events));
    }
  }

  /** A failed dispatch is tried again: a pass of the loop that finds the child live and no dispatch under way or done
      dispatches, as long as it is not too late. */
  lemma FailedCancelIsRetried(events: seq<Event>)
    requires var s := Run(INIT, events);
             s.halt.Looping? && Result !in events && s.dispatching == {} && Successes(s.attempts) == 0
    ensures Step(Run(INIT, events), LoopPass(false)).dispatching == {HALTER}
  {
    EveryRunKeepsInv(events);
    FlagsFollowEvents(events);
  }

  /** Every wait of onHalted is bounded: when it runs out, onHalted returns, and records the timeout exactly if the
      child has not ended. */
  lemma HaltIsBounded(s: State)
    ensures s.halt.AwaitResponse? && !s.hasResult && !s.responseReceived ==>
              Step(s, ResponseTimeout) == s.(halt := Returned, cancelTimedOut := true)
    ensures s.halt.AwaitResponse? && (s.hasResult || s.responseReceived) ==>
              && Step(s, ResponseTimeout) == s
              && Step(s, ResponseSeen) == s.(halt := if s.hasHandle && !s.hasResult then Looping else Returned)
    ensures s.halt.Looping? && (s.hasResult || s.cancelDispatched) ==>
              forall expired :: Step(s, LoopPass(expired)) == s.(halt := AwaitChild)
    ensures s.halt.Looping? && !s.hasResult && !s.cancelDispatched ==>
              Step(s, if s.cancelInFlight then InFlightTimeout else LoopPass(true))
              == s.(halt := Returned, cancelTimedOut := true)
    ensures s.halt.AwaitChild? ==>
              Step(s, ChildTimeout) == s.(halt := Returned, cancelTimedOut := s.cancelTimedOut || !s.hasResult)
  {
  }

  /** The shared state of one workflow, with where onHalted stands; one method per critical section. */
  class WorkflowState {
    var responseReceived: bool
    var hasHandle: bool
    var hasResult: bool
    var haltRequested: bool
    var cancelInFlight: bool
    var cancelDispatched: bool
    var cancelTimedOut: bool
    var halt: Halt
    var dispatching: set<int>
    var attempts: seq<bool>

    constructor ()
      ensures View() == INIT
    {
      responseReceived, hasHandle, hasResult, haltRequested := false, false, false, false;
      cancelInFlight, cancelDispatched, cancelTimedOut := false, false, false;
      halt, dispatching, attempts := Idle, {}, [];
    }

    function View(): State
      reads this
    {
      State(responseReceived, hasHandle, hasResult, haltRequested, cancelInFlight, cancelDispatched, cancelTimedOut,
            halt, dispatching, attempts)
    }

    method OnGoalResponse(accepted: bool) returns (dispatch: bool)
      requires !responseReceived
      modifies this
      ensures View() == Step(old(View()), GoalResponse(accepted))
      ensures dispatch <==> accepted && haltRequested && !cancelDispatched && !old(cancelInFlight)
    {
      responseReceived, hasHandle, dispatch := true, accepted, false;
      if accepted && haltRequested && !cancelDispatched && !cancelInFlight {
        cancelInFlight, dispatching, dispatch := true, dispatching + {CALLBACK}, true;
      }
    }

    method OnResult()
      modifies this
      ensures View() == Step(old(View()), Result)
    {
      hasResult := true;
    }

    /** The entry of onHalted, up to its first wait. */
    method BeginHalt()
      requires halt == Idle
      modifies this
      ensures View() == Step(old(View()), HaltTree)
    {
      haltRequested := true;
      if !hasResult && !responseReceived {
        halt := AwaitResponse;
      } else if hasResult || !hasHandle {
        halt := Returned;
      } else {
        halt := Looping;
      }
    }

    /** One pass of the cancel loop; true means that onHalted now dispatches. */
    method LoopOnce(expired: bool) returns (dispatch: bool)
      requires halt == Looping
      modifies this
      ensures View() == Step(old(View()), LoopPass(expired))
      ensures dispatch <==> !hasResult && !cancelDispatched && !old(cancelInFlight) && !expired
    {
      dispatch := false;
      if hasResult || cancelDispatched {
        halt := AwaitChild;
      } else if !cancelInFlight {
        if expired {
          cancelTimedOut, halt := true, Returned;
        } else {
          cancelInFlight, halt, dispatching, dispatch := true, Dispatching, dispatching + {HALTER}, true;
        }
      }
    }

    /** The closing critical section of dispatch_cancel. */
    method EndDispatch(t: int, ok: bool)
      requires t in dispatching
      modifies this
      ensures View() == Step(old(View()), DispatchReturns(t, ok))
    {
      cancelInFlight, cancelDispatched := false, ok;
      dispatching, attempts := dispatching - {t}, attempts + [ok];
      if t == HALTER {
        halt := Looping;
      }
    }
  }
}
