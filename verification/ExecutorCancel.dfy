/** Cancelling the device command: the executor's worker and the goal-response callback share `ChildExecutionState`. */
module ExecutorCancel {
  import opened Common
  import opened CancelHandshake

  /** The fields the critical sections share. */
  datatype Flags = Flags(
    responseReceived: bool, hasHandle: bool, terminal: bool, cancelRequested: bool, cancelDispatched: bool)

  /** First half of cancel_child_once: true means the caller must now dispatch. */
  function BeginCancel(f: Flags): (Flags, bool) {
    var asked := f.(cancelRequested := true);
    if !f.hasHandle || f.cancelDispatched then (asked, false) else (asked.(cancelDispatched := true), true)
  }

  /** The goal-response callback: true means it must dispatch the late cancel. */
  function TakeResponse(f: Flags, accepted: bool): (Flags, bool) {
    var answered := f.(responseReceived := true, hasHandle := accepted);
    if accepted && f.cancelRequested && !f.cancelDispatched then (answered.(cancelDispatched := true), true)
    else (answered, false)
  }

  class ChildExecutionState {
    var responseReceived: bool
    var hasHandle: bool
    var terminal: bool
    var cancelRequested: bool
    var cancelDispatched: bool

    constructor ()
      ensures View() == Flags(false, false, false, false, false)
    {
      responseReceived, hasHandle, terminal, cancelRequested, cancelDispatched := false, false, false, false, false;
    }

    function View(): Flags
      reads this
    {
      Flags(responseReceived, hasHandle, terminal, cancelRequested, cancelDispatched)
    }

    method EnterCancel() returns (dispatch: bool)
      modifies this
      ensures (View(), dispatch) == BeginCancel(old(View()))
      ensures cancelRequested && (dispatch <==> old(hasHandle && !cancelDispatched))
      ensures cancelDispatched == (old(cancelDispatched) || dispatch)
      ensures responseReceived == old(responseReceived) && hasHandle == old(hasHandle) && terminal == old(terminal)
    {
      cancelRequested := true;
      if !hasHandle || cancelDispatched {
        return false;
      }
      cancelDispatched := true;
      return true;
    }

    method OnGoalResponse(accepted: bool) returns (dispatch: bool)
      modifies this
      ensures (View(), dispatch) == TakeResponse(old(View()), accepted)
      ensures responseReceived && hasHandle == accepted
      ensures dispatch <==> accepted && cancelRequested && !old(cancelDispatched)
      ensures cancelDispatched == (old(cancelDispatched) || dispatch)
      ensures cancelRequested == old(cancelRequested) && terminal == old(terminal)
    {
      dispatch := false;
      responseReceived := true;
      hasHandle := accepted;
      if accepted && cancelRequested && !cancelDispatched {
        cancelDispatched := true;
        dispatch := true;
      }
    }

    method OnCancelThrew()
      modifies this
      ensures View() == old(View()).(cancelDispatched := false)
    {
      cancelDispatched := false;
    }

    method OnResult()
      modifies this
      ensures View() == old(View()).(terminal := true)
    {
      terminal := true;
    }
  }

  /** The shared fields, the threads inside a dispatch, and the log of finished dispatches. */
  datatype State = State(flags: Flags, dispatching: set<int>, attempts: seq<bool>)

  const INIT := State(Flags(false, false, false, false, false), {}, [])

  datatype Event =
    | CancelChildOnce(t: int)
    | GoalResponse(t: int, accepted: bool)
    | CancelSent(t: int)
    | CancelThrew(t: int)
    | Result

  function Step(s: State, e: Event): State {
    match e
    case CancelChildOnce(t) =>
      if t in s.dispatching then s
      else
        var (flags, dispatch) := BeginCancel(s.flags);
        s.(flags := flags, dispatching := if dispatch then s.dispatching + {t} else s.dispatching)
    case GoalResponse(t, accepted) =>
      if t in s.dispatching || s.flags.responseReceived then s
      else
        var (flags, dispatch) := TakeResponse(s.flags, accepted);
        s.(flags := flags, dispatching := if dispatch then s.dispatching + {t} else s.dispatching)
    case CancelSent(t) =>
      if t in s.dispatching then State(s.flags, s.dispatching - {t}, s.attempts + [true]) else s
    case CancelThrew(t) =>
      if t in s.dispatching then
        State(s.flags.(cancelDispatched := false), s.dispatching - {t}, s.attempts + [false])
      else s
    case Result => s.(flags := s.flags.(terminal := true))
  }

  function Run(s: State, events: seq<Event>): State {
    Fold(Step, s, events)
  }

  function Actions(e: Event): seq<Action> {
    match e
    case CancelChildOnce(t) => [Request(t), Take(t), Drop(t)]
    case GoalResponse(t, accepted) => [Respond(t, accepted), Take(t), Drop(t)]
    case CancelSent(t) => [Succeed(t)]
    case CancelThrew(t) => [Throw(t)]
    case Result => [Finish]
  }

  ghost predicate Simulates(h: Handshake, s: State) {
    && h.requested == s.flags.cancelRequested
    && h.handle == (if !s.flags.responseReceived then Unknown else if s.flags.hasHandle then Known else RefusedHandle)
    && (s.flags.hasHandle ==> s.flags.responseReceived)
    && h.live == !s.flags.terminal
    && h.committed == {}
    && !h.gaveUp
    && s.flags.cancelDispatched == !h.token.Free?
    && s.dispatching == (if h.token.Held? then {h.token.t} else {})
    && h.successes == Successes(s.attempts)
    && (h.lastThrew ==> LastFailed(s.attempts))
  }

  ghost predicate Inv(s: State) {
    exists h :: Simulates(h, s) && Safe(h)
  }

  lemma SimulateEntry(h: Handshake, s: State, e: Event)
    requires Simulates(h, s) && Safe(h) && Step(s, e) != s
    requires e.CancelChildOnce? || e.GoalResponse?
    ensures Simulates(ActAll(h, Actions(e)), Step(s, e))
  {
    match e
    case CancelChildOnce(t) => Three(h, Request(t), Take(t), Drop(t));
    case GoalResponse(t, accepted) => Three(h, Respond(t, accepted), Take(t), Drop(t));
  }

  lemma SimulateEnd(h: Handshake, s: State, e: Event)
    requires Simulates(h, s) && Safe(h) && Step(s, e) != s
    requires e.CancelSent? || e.CancelThrew? || e.Result?
    ensures Simulates(ActAll(h, Actions(e)), Step(s, e))
  {
    hide Successes, LastFailed;
    match e
    case CancelSent(t) => One(h, Succeed(t)); Logged(s.attempts, true);
    case CancelThrew(t) => One(h, Throw(t)); Logged(s.attempts, false);
    case Result => One(h, Finish);
  }

  lemma StepKeepsInv(s: State, e: Event)
    requires Inv(s)
    ensures Inv(Step(s, e))
  {
    var h :| Simulates(h, s) && Safe(h);
    if Step(s, e) != s {
      if e.CancelChildOnce? || e.GoalResponse? {
        SimulateEntry(h, s, e);
      } else {
        SimulateEnd(h, s, e);
      }
      ActAllKeepsSafe(h, Actions(e));
    }
  }

  lemma EveryRunKeepsInv(events: seq<Event>)
    ensures Inv(Run(INIT, events))
  {
    assert Simulates(START, INIT);
    forall s, e | Inv(s) ensures Inv(Step(s, e)) {
      StepKeepsInv(s, e);
    }
    FoldKeeps(s => Inv(s), Step, INIT, events);
  }

  /** Whether the bridge's answer, the first one to arrive, accepted the command. */
  function FirstAnswer(events: seq<Event>): Option<bool> {
    if events == [] then None
    else
      var earlier, last := FirstAnswer(events[..|events| - 1]), events[|events| - 1];
      if earlier.None? && last.GoalResponse? then Some(last.accepted) else earlier
  }

  /** Nothing that happened is forgotten: each flag tells whether its event occurred in the run. */
  lemma {:induction false} FlagsFollowEvents(events: seq<Event>)
    ensures var f := Run(INIT, events).flags;
            && (f.cancelRequested <==> exists i :: 0 <= i < |events| && events[i].CancelChildOnce?)
            && (f.responseReceived <==> exists i :: 0 <= i < |events| && events[i].GoalResponse?)
            && (f.hasHandle <==> FirstAnswer(events) == Some(true))
            && (f.terminal <==> Result in events)
    ensures Run(INIT, events).flags.responseReceived <==> FirstAnswer(events).Some?
    ensures Run(INIT, events).dispatching != {} ==>
              Run(INIT, events).flags.cancelRequested && Run(INIT, events).flags.hasHandle
  {
    if events != [] {
      var n := |events| - 1;
      FlagsFollowEvents(events[..n]);
      assert events == events[..n] + [events[n]];
      assert Run(INIT, events) == Step(Run(INIT, events[..n]), events[n]);
      assert forall i :: 0 <= i < n ==> events[..n][i] == events[i];
    }
  }

  /** In every interleaving: at most one thread dispatches, at most one dispatch ever succeeds, and once a cancel was
      asked for and the bridge has accepted the command, in whichever order, the cancel of the live child is being
      dispatched, was dispatched, or failed in its last attempt. */
  lemma NoLostAndNoDoubleCancel(events: seq<Event>)
    ensures var s := Run(INIT, events);
            && (forall t, u :: t in s.dispatching && u in s.dispatching ==> t == u)
            && Successes(s.attempts) <= 1
            && (Successes(s.attempts) == 1 ==> s.dispatching == {} && s.flags.cancelDispatched)
            && ((exists i :: 0 <= i < |events| && events[i].CancelChildOnce?)
                && FirstAnswer(events) == Some(true) && Result !in events ==>
                  s.dispatching != {} || Successes(s.attempts) == 1 || LastFailed(s.attempts))
  {
    EveryRunKeepsInv(events);
    FlagsFollowEvents(events);
  }

  /** cancel_child_once may simply be called again: after a failed attempt it dispatches anew. */
  lemma FailedCancelIsRetried(events: seq<Event>, t: int)
    requires var s := Run(INIT, events);
             FirstAnswer(events) == Some(true) && s.dispatching == {} && Successes(s.attempts) == 0
    ensures Step(Run(INIT, events), CancelChildOnce(t)).dispatching == {t}
  {
    EveryRunKeepsInv(events);
    FlagsFollowEvents(events);
  }
}
