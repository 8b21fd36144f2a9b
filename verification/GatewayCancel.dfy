/** Cancelling a workflow from the gateway: RPC threads, shutdown and callbacks share one `PendingGoal`. */
module GatewayCancel {
  import opened CancelHandshake

  /** `pending` says that the goals map still has the entry; `wanted` records that a cancel was asked for, by a request
      or by a shutdown that was already under way when the goal was accepted. */
  datatype State = State(
    pending: bool, hasHandle: bool, cancelRequested: bool, cancelDispatched: bool, cancelFailed: bool,
    stopping: bool, wanted: bool, committed: set<int>, dispatching: set<int>, attempts: seq<bool>)

  const INIT := State(true, false, false, false, false, false, false, {}, {}, [])

  datatype Event =
    | CancelRequest(t: int)
    | CancelActive(t: int)
    | StopAccepting
    | GoalAccepted(t: int)
    | GoalGone
    | DispatchEnter(t: int)
    | DispatchSent(t: int)
    | DispatchThrew(t: int)

  function Step(s: State, e: Event): State {
    match e
    case CancelRequest(t) =>
      if !s.pending then s
      else
        s.(cancelRequested := true, wanted := true,
           committed := if s.hasHandle then s.committed + {t} else s.committed)
    case CancelActive(t) =>
      if !s.pending then s.(stopping := true)
      else
        s.(stopping := true, cancelRequested := true, wanted := true,
           committed := if s.hasHandle && !s.cancelDispatched then s.committed + {t} else s.committed)
    case StopAccepting => s.(stopping := true)
    case GoalAccepted(t) =>
      if !s.pending || s.hasHandle then s
      else
        var cancel := s.stopping || s.cancelRequested;
        s.(hasHandle := true, wanted := s.wanted || cancel,
           committed := if cancel then s.committed + {t} else s.committed)
    case GoalGone => s.(pending := false)
    case DispatchEnter(t) =>
      if t !in s.committed then s
      else if !s.pending || s.cancelDispatched then s.(committed := s.committed - {t})
      else
        s.(committed := s.committed - {t}, dispatching := s.dispatching + {t},
           cancelDispatched := true, cancelFailed := false)
    case DispatchSent(t) =>
      if t !in s.dispatching then s
      else s.(dispatching := s.dispatching - {t}, attempts := s.attempts + [true])
    case DispatchThrew(t) =>
      if t !in s.dispatching then s
      else
        var failed := s.(dispatching := s.dispatching - {t}, attempts := s.attempts + [false]);
        if s.pending then failed.(cancelDispatched := false, cancelFailed := true) else failed
  }

  function Run(s: State, events: seq<Event>): State {
    Fold(Step, s, events)
  }

  function Actions(s: State, e: Event): seq<Action> {
    match e
    case CancelRequest(t) => [Request(t)]
    case CancelActive(t) => if !s.pending then [] else if t in s.committed then [Request(t)] else [Request(t), Drop(t)]
    case StopAccepting => []
    case GoalAccepted(t) =>
      if s.stopping || s.cancelRequested then [Request(t), Respond(t, true)] else [Respond(t, true)]
    case GoalGone => [Finish]
    case DispatchEnter(t) => if !s.pending then [Drop(t)] else [Take(t), Drop(t)]
    case DispatchSent(t) => [Succeed(t)]
    case DispatchThrew(t) => [Throw(t)]
  }

  ghost predicate Simulates(h: Handshake, s: State) {
    && h.requested == s.wanted
    && (s.cancelRequested ==> s.wanted)
    && (s.wanted ==> s.cancelRequested || s.hasHandle)
    && h.handle == (if s.hasHandle then Known else Unknown)
    && h.live == s.pending
    && h.committed == s.committed
    && !h.gaveUp
    && (s.pending ==> s.cancelDispatched == !h.token.Free?)
    && s.dispatching == (if h.token.Held? then {h.token.t} else {})
    && h.successes == Successes(s.attempts)
    && (h.lastThrew ==> LastFailed(s.attempts))
    && (s.pending ==> h.lastThrew == s.cancelFailed)
  }

  ghost predicate Inv(s: State) {
    exists h :: Simulates(h, s) && Safe(h)
  }

  lemma SimulateRequest(h: Handshake, s: State, t: int)
    requires Simulates(h, s) && Safe(h) && s.pending
    ensures Simulates(ActAll(h, Actions(s, CancelRequest(t))), Step(s, CancelRequest(t)))
  {
    One(h, Request(t));
  }

  lemma SimulateShutdown(h: Handshake, s: State, t: int)
    requires Simulates(h, s) && Safe(h)
    ensures Simulates(ActAll(h, Actions(s, CancelActive(t))), Step(s, CancelActive(t)))
  {
    One(h, Request(t));
    Two(h, Request(t), Drop(t));
    if t !in s.committed {
      assert (s.committed + {t}) - {t} == s.committed;
    } else {
      assert s.committed + {t} == s.committed;
    }
  }

  lemma SimulateAccepted(h: Handshake, s: State, t: int)
    requires Simulates(h, s) && Safe(h) && s.pending && !s.hasHandle
    ensures Simulates(ActAll(h, Actions(s, GoalAccepted(t))), Step(s, GoalAccepted(t)))
  {
    One(h, Respond(t, true));
    Two(h, Request(t), Respond(t, true));
  }

  lemma SimulateEnter(h: Handshake, s: State, t: int)
    requires Simulates(h, s) && Safe(h) && t in s.committed
    ensures Simulates(ActAll(h, Actions(s, DispatchEnter(t))), Step(s, DispatchEnter(t)))
  {
    One(h, Drop(t));
    Two(h, Take(t), Drop(t));
    assert (s.committed - {t}) - {t} == s.committed - {t};
  }

  lemma DispatcherHoldsToken(h: Handshake, s: State, t: int)
    requires Simulates(h, s) && t in s.dispatching
    ensures h.token == Held(t) && s.dispatching - {t} == {}
  {
  }

  lemma SimulateSent(h: Handshake, s: State, t: int)
    requires Simulates(h, s) && Safe(h) && t in s.dispatching
    ensures Simulates(ActAll(h, Actions(s, DispatchSent(t))), Step(s, DispatchSent(t)))
  {
    DispatcherHoldsToken(h, s, t);
    One(h, Succeed(t));
    Logged(s.attempts, true);
    var after := h.(token := Spent, successes := h.successes + 1);
    var next := s.(dispatching := {}, attempts := s.attempts + [true]);
    assert ActAll(h, Actions(s, DispatchSent(t))) == after;
    assert Step(s, DispatchSent(t)) == next;
    assert after.successes == Successes(next.attempts);
    assert !after.lastThrew;
    assert Simulates(after, next);
  }

  lemma SimulateThrew(h: Handshake, s: State, t: int)
    requires Simulates(h, s) && Safe(h) && t in s.dispatching
    ensures Simulates(ActAll(h, Actions(s, DispatchThrew(t))), Step(s, DispatchThrew(t)))
  {
    DispatcherHoldsToken(h, s, t);
    One(h, Throw(t));
    Logged(s.attempts, false);
    assert Act(h, Throw(t)) == h.(token := Free, lastThrew := true);
    assert Step(s, DispatchThrew(t)).dispatching == {};
  }

  lemma StepKeepsInv(s: State, e: Event)
    requires Inv(s)
    ensures Inv(Step(s, e))
  {
    var h :| Simulates(h, s) && Safe(h);
    if Step(s, e) != s {
      match e {
        case CancelRequest(t) => SimulateRequest(h, s, t);
        case CancelActive(t) => SimulateShutdown(h, s, t);
        case StopAccepting =>
        case GoalAccepted(t) => SimulateAccepted(h, s, t);
        case GoalGone => One(h, Finish);
        case DispatchEnter(t) => SimulateEnter(h, s, t);
        case DispatchSent(t) => SimulateSent(h, s, t);
        case DispatchThrew(t) => SimulateThrew(h, s, t);
      }
      ActAllKeepsSafe(h, Actions(s, e));
    }
  }

  lemma EveryRunKeepsInv(events: seq<Event>)
    ensures Inv(Run(INIT, events))
  {
    assert Simulates(START, INIT);
    forall s, e | Inv(s) ensures Inv(Step(s, e)) {
      StepKeepsInv(s, e);
    }
    FoldKeeps(s => Inv(s), Step, INIT, events);
  }

  /** A cancel or a shutdown asked for the goal. */
  ghost predicate Asked(events: seq<Event>) {
    exists i :: 0 <= i < |events| && (events[i].CancelRequest? || events[i].CancelActive?)
  }

  ghost predicate ShutDown(events: seq<Event>) {
    exists i :: 0 <= i < |events| && events[i].CancelActive?
  }

  ghost predicate Accepted(events: seq<Event>) {
    exists i :: 0 <= i < |events| && events[i].GoalAccepted?
  }

  /** The goal was accepted after intake had stopped. */
  ghost predicate AcceptedTooLate(events: seq<Event>) {
    exists i :: 0 <= i < |events| && events[i].GoalAccepted? && !Accepted(events[..i]) && StopAccepting in events[..i]
  }

  lemma StepTouchesThreads(s: State, e: Event)
    requires e.StopAccepting? || e.GoalGone? || e.DispatchEnter? || e.DispatchSent? || e.DispatchThrew?
    ensures var t := Step(s, e);
            && t.pending == (s.pending && !e.GoalGone?) && t.hasHandle == s.hasHandle
            && t.cancelRequested == s.cancelRequested && t.wanted == s.wanted
            && t.stopping == (s.stopping || e.StopAccepting?)
  {
  }

  /** What one event adds to what the entry remembers. */
  lemma StepRemembers(s: State, e: Event)
    ensures var t := Step(s, e);
            && (t.pending <==> s.pending && !e.GoalGone?)
            && (s.pending ==>
                  && (t.hasHandle <==> s.hasHandle || e.GoalAccepted?)
                  && (t.cancelRequested <==> s.cancelRequested || e.CancelRequest? || e.CancelActive?)
                  && (t.stopping <==> s.stopping || e.StopAccepting? || e.CancelActive?)
                  && (t.wanted <==>
                        || s.wanted || e.CancelRequest? || e.CancelActive?
                        || (e.GoalAccepted? && !s.hasHandle && (s.stopping || s.cancelRequested))))
  {
    match e
    case CancelRequest(t) =>
    case CancelActive(t) =>
    case GoalAccepted(t) =>
    case _ => StepTouchesThreads(s, e);
  }

  lemma {:induction false} EntryStaysPending(events: seq<Event>)
    ensures Run(INIT, events).pending <==> GoalGone !in events
  {
    hide Step;
    if events != [] {
      var n := |events| - 1;
      StepRemembers(Run(INIT, events[..n]), events[n]);
      EntryStaysPending(events[..n]);
      assert events == events[..n] + [events[n]];
      assert Run(INIT, events) == Step(Run(INIT, events[..n]), events[n]);
    }
  }

  ghost predicate Remembers(s: State, events: seq<Event>) {
    && (s.hasHandle <==> Accepted(events))
    && (s.cancelRequested <==> Asked(events))
    && (s.wanted <==> Asked(events) || AcceptedTooLate(events))
    && (s.stopping <==> StopAccepting in events || ShutDown(events))
  }

  lemma ExtendedRun(events: seq<Event>)
    requires events != []
    ensures var n := |events| - 1;
            var before, last := events[..n], events[n];
            && (Asked(events) <==> Asked(before) || last.CancelRequest? || last.CancelActive?)
            && (Accepted(events) <==> Accepted(before) || last.GoalAccepted?)
            && (ShutDown(events) <==> ShutDown(before) || last.CancelActive?)
            && (ShutDown(before) ==> Asked(before))
  {
    var n := |events| - 1;
    var before := events[..n];
    if Accepted(before) {
      var i :| 0 <= i < n && before[i].GoalAccepted?;
      assert events[i].GoalAccepted?;
    }
    if ShutDown(before) {
      var i :| 0 <= i < n && before[i].CancelActive?;
      assert events[i].CancelActive?;
    }
    if Asked(before) {
      var i :| 0 <= i < n && (before[i].CancelRequest? || before[i].CancelActive?);
      assert events[i].CancelRequest? || events[i].CancelActive?;
    }
  }

  lemma ExtendedLateness(events: seq<Event>)
    requires events != []
    ensures var n := |events| - 1;
            var before, last := events[..n], events[n];
            AcceptedTooLate(events) <==>
              || AcceptedTooLate(before)
              || (last.GoalAccepted? && !Accepted(before) && StopAccepting in before)
  {
    hide Accepted;
    var n := |events| - 1;
    var before := events[..n];
    if AcceptedTooLate(before) {
      var i :| 0 <= i < n && before[i].GoalAccepted? && !Accepted(before[..i]) && StopAccepting in before[..i];
      assert before[..i] == events[..i];
    }
    if AcceptedTooLate(events) {
      var i :| 0 <= i <= n && events[i].GoalAccepted? && !Accepted(events[..i]) && StopAccepting in events[..i];
      if i < n {
        assert before[..i] == events[..i];
      }
    }
  }

  lemma NothingAsked()
    ensures !Asked([]) && !Accepted([]) && !AcceptedTooLate([]) && !ShutDown([])
  {
  }

  /** While the entry is pending nothing that happened to it is forgotten. */
  lemma {:induction false} FlagsFollowEvents(events: seq<Event>)
    requires GoalGone !in events
    ensures Remembers(Run(INIT, events), events)
  {
    hide Step, Asked, Accepted, AcceptedTooLate, ShutDown;
    if events == [] {
      NothingAsked();
    } else {
      var n := |events| - 1;
      var before, e := events[..n], events[n];
      StepRemembers(Run(INIT, before), e);
      assert events == before + [e];
      FlagsFollowEvents(before);
      EntryStaysPending(before);
      ExtendedRun(events);
      ExtendedLateness(events);
      assert Run(INIT, events) == Step(Run(INIT, before), e);
      assert forall i :: 0 <= i < n ==> before[i] == events[i];
    }
  }

  /** In every interleaving: at most one thread dispatches and at most one dispatch ever succeeds; once a pending goal
      was accepted and its cancel was asked for, in whichever order, or it was accepted after intake had stopped, its
      cancel is on its way, in dispatch, dispatched, or marked failed, and it is marked failed only if its last dispatch
      threw. */
  lemma NoLostAndNoDoubleCancel(events: seq<Event>)
    ensures var s := Run(INIT, events);
            && (forall t, u :: t in s.dispatching && u in s.dispatching ==> t == u)
            && Successes(s.attempts) <= 1
            && (GoalGone !in events && Accepted(events) && (Asked(events) || AcceptedTooLate(events)) ==>
                  s.committed != {} || s.dispatching != {} || Successes(s.attempts) == 1 || s.cancelFailed)
            && (GoalGone !in events && s.cancelFailed ==> LastFailed(s.attempts))
  {
    EveryRunKeepsInv(events);
    EntryStaysPending(events);
    if GoalGone !in events {
      FlagsFollowEvents(events);
    }
  }

  /** A cancel may be asked for again at any time. */
  lemma CancelCommitsAgain(events: seq<Event>, t: int)
    requires GoalGone !in events && Accepted(events)
    ensures t in Step(Run(INIT, events), CancelRequest(t)).committed
  {
    EntryStaysPending(events);
    FlagsFollowEvents(events);
  }

  /** A committed thread that finds the goal pending and its cancel undispatched takes the dispatch. */
  lemma CommittedCancelIsDispatched(events: seq<Event>, t: int)
    requires var s := Run(INIT, events);
             GoalGone !in events && t in s.committed && s.dispatching == {} && Successes(s.attempts) == 0
    ensures Step(Run(INIT, events), DispatchEnter(t)).dispatching == {t}
  {
    EveryRunKeepsInv(events);
    EntryStaysPending(events);
  }

  /** The map entry itself, with the threads that work on it; one method per critical section. */
  class PendingGoal {
    var pending: bool
    var hasHandle: bool
    var cancelRequested: bool
    var cancelDispatched: bool
    var cancelFailed: bool
    var stopping: bool
    var wanted: bool
    var committed: set<int>
    var dispatching: set<int>
    var attempts: seq<bool>

    constructor ()
      ensures View() == INIT
    {
      pending, hasHandle, cancelRequested, cancelDispatched, cancelFailed := true, false, false, false, false;
      stopping, wanted, committed, dispatching, attempts := false, false, {}, {}, [];
    }

    function View(): State
      reads this
    {
      State(pending, hasHandle, cancelRequested, cancelDispatched, cancelFailed, stopping, wanted, committed,
            dispatching, attempts)
    }

    /** CancelWorkflow, or a submit whose wait for the goal response ran out. */
    method RequestCancel(t: int)
      modifies this
      ensures View() == Step(old(View()), CancelRequest(t))
    {
      if pending {
        cancelRequested, wanted := true, true;
        if hasHandle {
          committed := committed + {t};
        }
      }
    }

    method CancelForShutdown(t: int)
      modifies this
      ensures View() == Step(old(View()), CancelActive(t))
    {
      stopping := true;
      if pending {
        cancelRequested, wanted := true, true;
        if hasHandle && !cancelDispatched {
          committed := committed + {t};
        }
      }
    }

    method OnAccepted(t: int)
      modifies this
      ensures View() == Step(old(View()), GoalAccepted(t))
    {
      if pending && !hasHandle {
        hasHandle := true;
        if stopping || cancelRequested {
          wanted, committed := true, committed + {t};
        }
      }
    }

    /** The first critical section of dispatch_cancel: true means that this thread sends the cancel. */
    method EnterDispatch(t: int) returns (send: bool)
      requires t in committed
      modifies this
      ensures View() == Step(old(View()), DispatchEnter(t))
      ensures send <==> old(pending && !cancelDispatched)
    {
      committed := committed - {t};
      if !pending || cancelDispatched {
        return false;
      }
      cancelDispatched, cancelFailed, dispatching := true, false, dispatching + {t};
      return true;
    }

    method LeaveDispatch(t: int, sent: bool)
      requires t in dispatching
      modifies this
      ensures View() == Step(old(View()), if sent then DispatchSent(t) else DispatchThrew(t))
    {
      dispatching, attempts := dispatching - {t}, attempts + [sent];
      if !sent && pending {
        cancelDispatched, cancelFailed := false, true;
      }
    }
  }
}
