/** How the executor ends a task: goals one after another, worker threads that may throw at any hook, one terminal
    transition and one task event per goal, and the gate that admits the next goal. */
module ExecutorTerminal {
  import opened Common
  import opened Outcomes

  /** handle_accepted, from the callback to the moment before the worker thread starts. */
  datatype Stage = Waiting | Joined | Ready

  /** Where a worker thread is; `second` marks the abort attempted after an exception. */
  datatype Pc =
    | Working
    | Excepted
    | Committing(result: GoalResult, second: bool)
    | Committed(result: GoalResult)
    | Leaving
    | Exiting

  datatype Entry = Entry(goal: nat, result: GoalResult)

  const ERROR_UNEXPECTED_CHILD_RESULT: uint16 := 114

  /** The result of every task whose worker threw. */
  const ABORT: GoalResult := SafeStop(ERROR_UNEXPECTED_CHILD_RESULT)

  /** The atomics every goal shares. */
  datatype Flags = Flags(busy: bool, parentTerminal: bool, eventPublished: bool)

  /** `verdicts[g]` is the terminal status the action server recorded for goal `g`; `lastWorker` is the joinable
      thread; the two logs record what took effect. */
  datatype State = State(
    flags: Flags, verdicts: seq<Option<GoalResult>>, accepting: map<nat, Stage>, workers: map<nat, Pc>,
    lastWorker: Option<nat>, transitions: seq<Entry>, events: seq<Entry>)

  const INIT := State(Flags(false, false, false), [], map[], map[], None, [], [])

  datatype Event =
    | HandleGoal
    | JoinPrevious(g: nat)
    | ResetFlags(g: nat)
    | StartWorker(g: nat)
    | WorkerThrows(g: nat)
    | ClaimTerminal(g: nat, result: GoalResult)
    | Transition(g: nat, fate: Fate)
    | PublishEvent(g: nat, ok: bool)
    | ReleaseGate(g: nat)
    | Exit(g: nat)

  function Accept(s: State): State {
    if s.flags.busy then s
    else
      s.(flags := s.flags.(busy := true), verdicts := s.verdicts + [None],
         accepting := s.accepting[|s.verdicts| := Waiting])
  }

  function Start(s: State, g: nat): State {
    if g in s.accepting && s.accepting[g].Ready? then
      s.(accepting := s.accepting - {g}, workers := s.workers[g := Working], lastWorker := Some(g))
    else s
  }

  /** The compare-exchange in commit_parent_terminal; after an exception it is always the abort. */
  function Claim(s: State, g: nat, result: GoalResult): State {
    if g in s.workers && (s.workers[g].Working? || s.workers[g].Excepted?) then
      var second := s.workers[g].Excepted?;
      if s.flags.parentTerminal then s.(workers := s.workers[g := Leaving])
      else
        s.(flags := s.flags.(parentTerminal := true),
           workers := s.workers[g := Committing(if second then ABORT else result, second)])
    else s
  }

  /** The hook and the goal-handle call. Nothing in this model refuses a second transition of a goal: that none is ever
      attempted is proved of the code. A call that threw counts as done if the goal is no longer active. */
  function Transit(s: State, g: nat, fate: Fate): State {
    if g in s.workers && s.workers[g].Committing? && g < |s.verdicts| then
      var pc := s.workers[g];
      if !fate.ThrowsBefore? then
        s.(verdicts := s.verdicts[g := Some(pc.result)],
           transitions := s.transitions + [Entry(g, pc.result)],
           workers := s.workers[g := Committed(pc.result)])
      else if s.verdicts[g].Some? then s.(workers := s.workers[g := Committed(pc.result)])
      else
        s.(flags := s.flags.(parentTerminal := false),
           workers := s.workers[g := if pc.second then Leaving else Excepted])
    else s
  }

  function Publish(s: State, g: nat, ok: bool): State {
    if g in s.workers && s.workers[g].Committed? then
      var log := if ok && !s.flags.eventPublished then [Entry(g, s.workers[g].result)] else [];
      s.(flags := s.flags.(eventPublished := true), events := s.events + log, workers := s.workers[g := Leaving])
    else s
  }

  /** The destructor of ActiveGuard. */
  function Release(s: State, g: nat): State {
    if g in s.workers && s.workers[g].Leaving? && g < |s.verdicts| then
      s.(flags := s.flags.(busy := s.flags.busy && !s.flags.parentTerminal && s.verdicts[g].None?),
         workers := s.workers[g := Exiting])
    else s
  }

  function Step(s: State, e: Event): State {
    match e
    case HandleGoal => Accept(s)
    case JoinPrevious(g) =>
      if g in s.accepting && s.accepting[g].Waiting? && (s.lastWorker.None? || s.lastWorker.value !in s.workers) then
        s.(accepting := s.accepting[g := Joined], lastWorker := None)
      else s
    case ResetFlags(g) =>
      if g in s.accepting && s.accepting[g].Joined? then
        s.(flags := Flags(s.flags.busy, false, false), accepting := s.accepting[g := Ready])
      else s
    case StartWorker(g) => Start(s, g)
    case WorkerThrows(g) =>
      if g in s.workers && s.workers[g].Working? then s.(workers := s.workers[g := Excepted]) else s
    case ClaimTerminal(g, result) => Claim(s, g, result)
    case Transition(g, fate) => Transit(s, g, fate)
    case PublishEvent(g, ok) => Publish(s, g, ok)
    case ReleaseGate(g) => Release(s, g)
    case Exit(g) => if g in s.workers && s.workers[g].Exiting? then s.(workers := s.workers - {g}) else s
  }

  function Run(s: State, events: seq<Event>): State {
    if events == [] then s else Step(Run(s, events[..|events| - 1]), events[|events| - 1])
  }

  /** The results logged for one goal, oldest first. */
  function Of(log: seq<Entry>, g: nat): seq<GoalResult> {
    if log == [] then []
    else
      Of(log[..|log| - 1], g) + if log[|log| - 1].goal == g then [log[|log| - 1].result] else []
  }

  lemma OfAppend(log: seq<Entry>, e: Entry, g: nat)
    ensures Of(log + [e], g) == Of(log, g) + if e.goal == g then [e.result] else []
  {
    assert (log + [e])[..|log|] == log;
  }

  function VerdictList(verdict: Option<GoalResult>): seq<GoalResult> {
    match verdict
    case None => []
    case Some(result) => [result]
  }

  /** What is true of goal `g` whatever the threads are doing. */
  ghost predicate Goal(s: State, g: nat)
    requires g < |s.verdicts|
  {
    && Of(s.transitions, g) == VerdictList(s.verdicts[g])
    && (Of(s.events, g) == [] || Of(s.events, g) == Of(s.transitions, g))
    && (s.verdicts[g].None? ==> g == |s.verdicts| - 1 && s.flags.busy)
  }

  /** The newest goal before its worker runs: the old worker may linger, but only on its way out. */
  ghost predicate Admitting(s: State) {
    s.accepting != map[] ==>
      && |s.verdicts| > 0
      && s.accepting.Keys == {|s.verdicts| - 1}
      && s.verdicts[|s.verdicts| - 1].None?
      && (!s.accepting[|s.verdicts| - 1].Waiting? ==> s.workers == map[])
      && (s.accepting[|s.verdicts| - 1].Ready? ==> !s.flags.parentTerminal && !s.flags.eventPublished)
  }

  /** The one worker: its program counter agrees with the flags and with the goal's verdict. */
  ghost predicate Worker(s: State, g: nat)
    requires g in s.workers
  {
    && s.lastWorker == Some(g)
    && g < |s.verdicts|
    && (!s.workers[g].Exiting? ==> g == |s.verdicts| - 1 && s.flags.busy && s.accepting == map[])
    && match s.workers[g]
       case Working | Excepted => s.verdicts[g].None? && !s.flags.parentTerminal && !s.flags.eventPublished
       case Committing(_, _) => s.verdicts[g].None? && s.flags.parentTerminal && !s.flags.eventPublished
       case Committed(result) =>
         s.verdicts[g] == Some(result) && s.flags.parentTerminal && !s.flags.eventPublished && Of(s.events, g) == []
       case Leaving => s.flags.parentTerminal == s.verdicts[g].Some?
       case Exiting => true
  }

  ghost predicate Gate(s: State) {
    |s.verdicts| > 0 && s.flags.busy && s.verdicts[|s.verdicts| - 1].Some? ==>
      |s.verdicts| - 1 in s.workers && !s.workers[|s.verdicts| - 1].Exiting?
  }

  ghost predicate Goals(s: State) {
    && (forall g: nat :: g < |s.verdicts| ==> Goal(s, g))
    && (forall g: nat :: g >= |s.verdicts| ==> Of(s.transitions, g) == [] && Of(s.events, g) == [])
  }

  ghost predicate Workers(s: State) {
    forall g :: g in s.workers ==> Worker(s, g)
  }

  ghost predicate Inv(s: State) {
    Goals(s) && Admitting(s) && Workers(s) && Gate(s) && (s.verdicts == [] ==> !s.flags.busy)
  }

  lemma SameGoals(s: State, t: State)
    requires Goals(s) && t.verdicts == s.verdicts && t.transitions == s.transitions && t.events == s.events
    requires s.flags.busy ==> t.flags.busy
    ensures Goals(t)
  {
    forall g: nat | g < |t.verdicts| ensures Goal(t, g) {
      assert Goal(s, g);
    }
  }

  lemma AcceptKeepsInv(s: State)
    requires Inv(s)
    ensures Inv(Accept(s))
  {
    var t := Accept(s);
    if !s.flags.busy {
      var n := |s.verdicts|;
      forall g: nat | g < |t.verdicts| ensures Goal(t, g) {
        if g < n { assert Goal(s, g); }
      }
      if n > 0 { assert Goal(s, n - 1); }
      assert s.accepting == map[];
      assert t.accepting.Keys == {n};
      forall g | g in t.workers ensures Worker(t, g) {
        assert Worker(s, g);
      }
    }
  }

  lemma WorkerIsLast(s: State)
    requires Workers(s)
    ensures forall g :: g in s.workers ==> s.lastWorker == Some(g)
  {
    forall g | g in s.workers ensures s.lastWorker == Some(g) {
      assert Worker(s, g);
    }
  }

  /** The joining callback waits for the previous thread, so nobody works while the flags are reset. */
  lemma AdmissionKeepsInv(s: State, e: Event)
    requires Inv(s) && (e.JoinPrevious? || e.ResetFlags? || e.StartWorker?)
    ensures Inv(Step(s, e))
  {
    var t := Step(s, e);
    if t != s {
      SameGoals(s, t);
      WorkerIsLast(s);
      var n := |s.verdicts|;
      assert e.g == n - 1;
      if e.JoinPrevious? {
        assert t.accepting.Keys == {n - 1};
        assert t.workers == map[];
      } else if e.ResetFlags? {
        assert t.accepting.Keys == {n - 1};
      } else {
        assert t.accepting == map[] && t.workers.Keys == {n - 1};
        assert Goal(s, n - 1);
      }
    }
  }

  lemma OneWorkerMoves(s: State, t: State, g: nat)
    requires Workers(s) && g in s.workers && g in t.workers
    requires t.workers == s.workers[g := t.workers[g]] && t.lastWorker == s.lastWorker && Worker(t, g)
    ensures Workers(t)
  {
    forall h | h in t.workers ensures Worker(t, h) {
      assert Worker(s, h) && Worker(s, g);
    }
  }

  lemma WorkKeepsInv(s: State, e: Event)
    requires Inv(s) && (e.WorkerThrows? || e.ClaimTerminal? || e.ReleaseGate? || e.Exit?)
    ensures Inv(Step(s, e))
  {
    var t := Step(s, e);
    if t != s {
      assert Worker(s, e.g);
      if e.Exit? {
        SameGoals(s, t);
        WorkerIsLast(s);
      } else {
        assert Goal(s, e.g);
        assert Worker(t, e.g);
        OneWorkerMoves(s, t, e.g);
        if e.ReleaseGate? {
          forall g: nat | g < |t.verdicts| ensures Goal(t, g) {
            assert Goal(s, g);
          }
        } else {
          SameGoals(s, t);
        }
      }
    }
  }

  lemma TransitKeepsInv(s: State, g: nat, fate: Fate)
    requires Inv(s)
    ensures Inv(Transit(s, g, fate))
  {
    var t := Transit(s, g, fate);
    if t != s {
      assert Worker(s, g) && Goal(s, g);
      assert Worker(t, g);
      OneWorkerMoves(s, t, g);
      if fate.ThrowsBefore? {
        SameGoals(s, t);
      } else {
        forall h: nat
          ensures Of(t.transitions, h) == Of(s.transitions, h) + if h == g then [s.workers[g].result] else []
        {
          OfAppend(s.transitions, Entry(g, s.workers[g].result), h);
        }
        forall h: nat | h < |t.verdicts| ensures Goal(t, h) {
          assert Goal(s, h);
        }
      }
    }
  }

  lemma PublishKeepsInv(s: State, g: nat, ok: bool)
    requires Inv(s)
    ensures Inv(Publish(s, g, ok))
  {
    var t := Publish(s, g, ok);
    if t != s {
      assert Worker(s, g) && Goal(s, g);
      assert Worker(t, g);
      OneWorkerMoves(s, t, g);
      if ok {
        forall h: nat ensures Of(t.events, h) == Of(s.events, h) + if h == g then [s.workers[g].result] else [] {
          OfAppend(s.events, Entry(g, s.workers[g].result), h);
        }
      } else {
        assert t.events == s.events;
      }
      forall h: nat | h < |t.verdicts| ensures Goal(t, h) {
        assert Goal(s, h);
      }
    }
  }

  lemma {:induction false} EveryRunKeepsInv(events: seq<Event>)
    ensures Inv(Run(INIT, events))
  {
    if events != [] {
      var s, e := Run(INIT, events[..|events| - 1]), events[|events| - 1];
      EveryRunKeepsInv(events[..|events| - 1]);
      match e {
        case HandleGoal => AcceptKeepsInv(s);
        case JoinPrevious(_) => AdmissionKeepsInv(s, e);
        case ResetFlags(_) => AdmissionKeepsInv(s, e);
        case StartWorker(_) => AdmissionKeepsInv(s, e);
        case Transition(g, fate) => TransitKeepsInv(s, g, fate);
        case PublishEvent(g, ok) => PublishKeepsInv(s, g, ok);
        case _ => WorkKeepsInv(s, e);
      }
    }
  }

  /** No goal-handle call is ever made on a goal that already has its terminal status: this is why a goal gets one
      transition at most. */
  lemma GoalHandleIsCalledWithoutVerdict(events: seq<Event>, g: nat)
    requires var s := Run(INIT, events); g in s.workers && s.workers[g].Committing?
    ensures var s := Run(INIT, events); g < |s.verdicts| && s.verdicts[g].None?
  {
    EveryRunKeepsInv(events);
    assert Worker(Run(INIT, events), g);
  }

  ghost predicate Reachable(s: State) {
    exists events: seq<Event> :: s == Run(INIT, events)
  }

  /** Whatever throws and however the threads interleave: a goal gets at most one terminal transition and at most one
      task event, and an event only with the result that the transition committed. */
  lemma OneTransitionOneEvent(s: State, g: nat)
    requires Reachable(s)
    ensures |Of(s.transitions, g)| <= 1
    ensures Of(s.events, g) == [] || Of(s.events, g) == Of(s.transitions, g)
  {
    var events: seq<Event> :| s == Run(INIT, events);
    EveryRunKeepsInv(events);
    if g < |s.verdicts| {
      assert Goal(s, g);
    }
  }

  lemma OneWorkerAtATime(events: seq<Event>, g: nat, h: nat)
    requires var s := Run(INIT, events); g in s.workers && h in s.workers
    ensures g == h
  {
    EveryRunKeepsInv(events);
    var s := Run(INIT, events);
    assert Worker(s, g) && Worker(s, h);
  }

  /** In every state: while an accepted goal has no transition, the gate is closed and no later goal was accepted. */
  lemma OpenGoalHoldsTheGate(s: State, g: nat)
    requires Reachable(s) && g < |s.verdicts| && Of(s.transitions, g) == []
    ensures s.flags.busy && g == |s.verdicts| - 1
    ensures Accept(s) == s
  {
    var events: seq<Event> :| s == Run(INIT, events);
    EveryRunKeepsInv(events);
    assert Goal(s, g);
  }

  /** Once no callback or worker is active, the gate is open exactly when every accepted goal was given its terminal
      transition. */
  lemma GateReopensExactlyAfterTransition(events: seq<Event>)
    requires var s := Run(INIT, events); s.accepting == map[] && s.workers == map[]
    ensures var s := Run(INIT, events);
            && (!s.flags.busy <==> forall g: nat :: g < |s.verdicts| ==> Of(s.transitions, g) != [])
            && (s.flags.busy ==> forall g: nat :: g < |s.verdicts| - 1 ==> Of(s.transitions, g) != [])
  {
    EveryRunKeepsInv(events);
    var s := Run(INIT, events);
    forall g: nat | g < |s.verdicts|
      ensures Of(s.transitions, g) == [] <==> g == |s.verdicts| - 1 && s.flags.busy
    {
      assert Goal(s, g);
    }
    if s.flags.busy {
      assert Of(s.transitions, |s.verdicts| - 1) == [];
    }
  }

  /** If a worker left without a transition, nothing ever happens again. */
  lemma {:induction false} UncommittedGoalBlocksForever(events: seq<Event>, more: seq<Event>)
    requires var s := Run(INIT, events); s.accepting == map[] && s.workers == map[] && s.flags.busy
    ensures Run(INIT, events + more) == Run(INIT, events)
    decreases |more|
  {
    if more == [] {
      assert events + more == events;
    } else {
      var k := |more| - 1;
      UncommittedGoalBlocksForever(events, more[..k]);
      assert (events + more)[..|events| + k] == events + more[..k];
    }
  }

  /** Goal `g`'s worker claims the terminal status for one result only. */
  ghost predicate Reports(events: seq<Event>, g: nat, result: GoalResult) {
    forall i :: 0 <= i < |events| && events[i].ClaimTerminal? && events[i].g == g ==> events[i].result == result
  }

  ghost predicate Reported(s: State, g: nat, result: GoalResult) {
    && (g in s.workers && s.workers[g].Committing? ==> s.workers[g].result == result || s.workers[g].result == ABORT)
    && (g < |s.verdicts| && s.verdicts[g].Some? ==> s.verdicts[g].value == result || s.verdicts[g].value == ABORT)
  }

  lemma StepKeepsReported(s: State, e: Event, g: nat, result: GoalResult)
    requires Reported(s, g, result) && (g >= |s.verdicts| ==> g !in s.workers)
    requires e.ClaimTerminal? && e.g == g ==> e.result == result
    ensures Reported(Step(s, e), g, result)
  {
  }

  /** Whatever races and throws, a goal's terminal status is its worker's own result or the abort after an exception. */
  lemma {:induction false} VerdictIsReported(events: seq<Event>, g: nat, result: GoalResult)
    requires Reports(events, g, result)
    ensures Reported(Run(INIT, events), g, result)
  {
    if events != [] {
      var before := events[..|events| - 1];
      VerdictIsReported(before, g, result);
      EveryRunKeepsInv(before);
      if g in Run(INIT, before).workers {
        assert Worker(Run(INIT, before), g);
      }
      StepKeepsReported(Run(INIT, before), events[|events| - 1], g, result);
    }
  }

  // Every accepted goal ends

  /** The gate decides alone: an open one admits the goal and closes. */
  lemma OpenGateAdmits(s: State)
    ensures s.flags.busy ==> Step(s, HandleGoal) == s
    ensures !s.flags.busy ==>
              var next := Step(s, HandleGoal);
              && next.verdicts == s.verdicts + [None] && next.flags == s.flags.(busy := true)
              && next.accepting == s.accepting[|s.verdicts| := Waiting] && next.workers == s.workers
  {
  }

  /** An admitted goal gets its worker once the previous one is gone. */
  lemma AdmittedGoalStarts(s: State, g: nat)
    requires Reachable(s) && g in s.accepting
    ensures s.accepting[g].Waiting? && s.workers == map[] ==>
              Step(s, JoinPrevious(g)).accepting == s.accepting[g := Joined]
    ensures s.accepting[g].Joined? ==>
              Step(s, ResetFlags(g)) == s.(flags := Flags(s.flags.busy, false, false),
                                           accepting := s.accepting[g := Ready])
    ensures s.accepting[g].Ready? ==>
              Step(s, StartWorker(g)).workers == map[g := Working] && g !in Step(s, StartWorker(g)).accepting
  {
    var events: seq<Event> :| s == Run(INIT, events);
    EveryRunKeepsInv(events);
    if s.accepting[g].Ready? {
      assert s.workers == map[];
    }
  }

  /** What the worker does next, whatever becomes of the calls it makes. */
  function NextOf(g: nat, pc: Pc, result: GoalResult, fate: Fate, ok: bool): Event {
    match pc
    case Working | Excepted => ClaimTerminal(g, result)
    case Committing(_, _) => Transition(g, fate)
    case Committed(_) => PublishEvent(g, ok)
    case Leaving => ReleaseGate(g)
    case Exiting => Exit(g)
  }

  function StepsLeft(pc: Pc): nat {
    match pc
    case Working => 7
    case Committing(_, second) => if second then 4 else 6
    case Excepted => 5
    case Committed(_) => 3
    case Leaving => 2
    case Exiting => 1
  }

  /** A worker is never stuck and never goes round: it is gone after at most seven steps. */
  lemma WorkerAdvances(s: State, g: nat, result: GoalResult, fate: Fate, ok: bool)
    requires Reachable(s) && g in s.workers
    ensures var next := Step(s, NextOf(g, s.workers[g], result, fate, ok));
            g in next.workers ==> StepsLeft(next.workers[g]) < StepsLeft(s.workers[g])
  {
    var events: seq<Event> :| s == Run(INIT, events);
    EveryRunKeepsInv(events);
    assert Worker(s, g);
  }

  /** The worker of `g` threw, or its transition did before it took effect. */
  predicate Failed(e: Event, g: nat) {
    e == WorkerThrows(g) || e == Transition(g, ThrowsBefore)
  }

  function Count(failed: bool): nat {
    if failed then 1 else 0
  }

  function Failures(events: seq<Event>, g: nat): nat {
    if events == [] then 0
    else Failures(events[..|events| - 1], g) + Count(Failed(events[|events| - 1], g))
  }

  ghost predicate Over(s: State, g: nat) {
    g < |s.verdicts| && g !in s.accepting && (g in s.workers ==> s.workers[g].Leaving? || s.workers[g].Exiting?)
  }

  /** `threw`, `failures` and `unpublished` say whether the transition threw early, how often anything failed, and
      whether the event could not be published, in the run so far. */
  ghost predicate Ends(s: State, g: nat, threw: bool, failures: nat, unpublished: bool, result: GoalResult) {
    && (g in s.workers ==> g < |s.verdicts|)
    && (threw ==> failures >= 1)
    && (g in s.workers && s.workers[g].Excepted? ==> failures >= 1)
    && (g in s.workers && s.workers[g].Committing? ==>
          if s.workers[g].second then failures >= 1 && s.workers[g].result == ABORT else s.workers[g].result == result)
    && (g < |s.verdicts| && s.verdicts[g].Some? ==>
          s.verdicts[g].value == result || (failures >= 1 && s.verdicts[g].value == ABORT))
    && (Over(s, g) ==>
          if s.verdicts[g].None? then threw && failures >= 2
          else Of(s.events, g) == [s.verdicts[g].value] || unpublished)
  }

  lemma AdmissionEnds(
      s: State, e: Event, g: nat, threw: bool, failures: nat, unpublished: bool, result: GoalResult)
    requires Inv(s) && Ends(s, g, threw, failures, unpublished, result)
    requires e.HandleGoal? || e.JoinPrevious? || e.ResetFlags? || e.StartWorker?
    ensures Ends(Step(s, e), g, threw, failures, unpublished, result)
  {
  }

  lemma WorkEnds(
      s: State, e: Event, g: nat, threw: bool, failures: nat, unpublished: bool, result: GoalResult)
    requires Inv(s) && Ends(s, g, threw, failures, unpublished, result)
    requires e.WorkerThrows? || e.ClaimTerminal? || e.ReleaseGate? || e.Exit?
    requires e.ClaimTerminal? && e.g == g ==> e.result == result
    ensures Ends(Step(s, e), g, threw, failures + Count(Failed(e, g)), unpublished, result)
  {
    hide Of, Goals, Gate, Admitting;
    if e.g in s.workers {
      assert Worker(s, e.g);
    }
  }

  lemma TransitEnds(
      s: State, h: nat, fate: Fate, g: nat, threw: bool, failures: nat, unpublished: bool, result: GoalResult)
    requires Inv(s) && Ends(s, g, threw, failures, unpublished, result)
    ensures var now := h == g && fate.ThrowsBefore?;
            Ends(Transit(s, h, fate), g, threw || now, failures + Count(now), unpublished, result)
  {
    if h in s.workers {
      assert Worker(s, h);
    }
  }

  lemma PublishEnds(
      s: State, h: nat, ok: bool, g: nat, threw: bool, failures: nat, unpublished: bool, result: GoalResult)
    requires Inv(s) && Ends(s, g, threw, failures, unpublished, result)
    ensures Ends(Publish(s, h, ok), g, threw, failures, unpublished || (h == g && !ok), result)
  {
    if h in s.workers && s.workers[h].Committed? {
      assert Worker(s, h);
      OfAppend(s.events, Entry(h, s.workers[h].result), g);
      assert s.events + [] == s.events;
    }
  }

  lemma StepEnds(s: State, e: Event, g: nat, threw: bool, failures: nat, unpublished: bool, result: GoalResult)
    requires Inv(s) && Ends(s, g, threw, failures, unpublished, result)
    requires e.ClaimTerminal? && e.g == g ==> e.result == result
    ensures Ends(Step(s, e), g, threw || e == Transition(g, ThrowsBefore), failures + Count(Failed(e, g)),
              unpublished || e == PublishEvent(g, false), result)
  {
    hide Inv, Ends, Transit, Publish, Accept, Start, Claim, Release;
    match e
    case HandleGoal => AdmissionEnds(s, e, g, threw, failures, unpublished, result);
    case JoinPrevious(_) => AdmissionEnds(s, e, g, threw, failures, unpublished, result);
    case ResetFlags(_) => AdmissionEnds(s, e, g, threw, failures, unpublished, result);
    case StartWorker(_) => AdmissionEnds(s, e, g, threw, failures, unpublished, result);
    case Transition(h, fate) =>
      TransitEnds(s, h, fate, g, threw, failures, unpublished, result);
    case PublishEvent(h, ok) => PublishEnds(s, h, ok, g, threw, failures, unpublished, result);
    case _ => WorkEnds(s, e, g, threw, failures, unpublished, result);
  }

  lemma StartEnds(g: nat, result: GoalResult)
    ensures Ends(INIT, g, false, 0, false, result)
  {
  }

  lemma {:induction false} EveryRunEnds(events: seq<Event>, g: nat, result: GoalResult)
    requires Reports(events, g, result)
    ensures Ends(Run(INIT, events), g, Transition(g, ThrowsBefore) in events,
              Failures(events, g), PublishEvent(g, false) in events,
              result)
  {
    hide Step, Inv, Ends;
    if events == [] {
      StartEnds(g, result);
    } else {
      var n := |events| - 1;
      var before := events[..n];
      EveryRunEnds(before, g, result);
      EveryRunKeepsInv(before);
      StepEnds(Run(INIT, before), events[n], g, Transition(g, ThrowsBefore) in before,
        Failures(before, g), PublishEvent(g, false) in before, result);
      assert events == before + [events[n]];
    }
  }

  /** Every goal ends. Once its worker is gone, or only the gate is left to it, a goal has its status, and it is the
      worker's own result unless something threw; it is without one only if its transition threw before it took effect
      after something else had thrown before; and its event is published with that status unless publishing failed. */
  lemma GoalEnds(events: seq<Event>, g: nat, result: GoalResult)
    requires Reports(events, g, result) && Over(Run(INIT, events), g)
    ensures var verdict := Run(INIT, events).verdicts[g];
            && (verdict.None? ==> Transition(g, ThrowsBefore) in events && Failures(events, g) >= 2)
            && (verdict.Some? && Failures(events, g) == 0 ==>
                  verdict == Some(result))
            && (verdict.Some? && PublishEvent(g, false) !in events ==>
                  Of(Run(INIT, events).events, g) == [verdict.value])
  {
    EveryRunEnds(events, g, result);
  }

  /** How one goal's worker goes: it reaches a terminal result or throws; then how the abort after an exception goes.
      The flags say whether a task event can be published. */
  datatype Work = Ends(result: GoalResult, fate: Fate, ok: bool) | Throws

  datatype Plan = Plan(work: Work, abortFate: Fate, abortOk: bool)

  function FirstCommits(p: Plan): bool {
    p.work.Ends? && !p.work.fate.ThrowsBefore?
  }

  /** The transition that takes effect, unless both attempts throw before it. */
  function Verdict(p: Plan): Option<GoalResult> {
    if FirstCommits(p) then Some(p.work.result)
    else if p.abortFate.ThrowsBefore? then None
    else Some(ABORT)
  }

  function EventFor(p: Plan): Option<GoalResult> {
    if if FirstCommits(p) then p.work.ok else p.abortOk then Verdict(p) else None
  }

  function LogFor(g: nat, result: Option<GoalResult>): seq<Entry> {
    match result
    case None => []
    case Some(r) => [Entry(g, r)]
  }

  datatype Commit = Lost | Won | Threw

  /** The executor node while one worker runs; `verdict` is the running goal's terminal status. */
  class TaskExecutor {
    var activeGoal: bool
    var parentTerminal: bool
    var eventPublished: bool
    var verdict: Option<GoalResult>
    var transitions: seq<Entry>
    var events: seq<Entry>

    constructor ()
      ensures !activeGoal && transitions == [] && events == []
    {
      activeGoal, parentTerminal, eventPublished := false, false, false;
      verdict, transitions, events := None, [], [];
    }

    method AcceptGoal() returns (accepted: bool)
      modifies this`activeGoal
      ensures activeGoal && accepted == !old(activeGoal)
    {
      accepted := !activeGoal;
      activeGoal := true;
    }

    method BeginGoal()
      modifies this`parentTerminal, this`eventPublished, this`verdict
      ensures !parentTerminal && !eventPublished && verdict == None
    {
      parentTerminal, eventPublished, verdict := false, false, None;
    }

    /** Losing the exchange changes nothing; a call that threw counts as won if the goal is no longer active. */
    method CommitParentTerminal(g: nat, result: GoalResult, fate: Fate) returns (r: Commit)
      modifies this`parentTerminal, this`verdict, this`transitions
      ensures r == if old(parentTerminal) then Lost
                   else if old(verdict).None? && fate.ThrowsBefore? then Threw else Won
      ensures parentTerminal == !r.Threw?
      ensures var effect := !r.Lost? && !fate.ThrowsBefore?;
              && verdict == (if effect then Some(result) else old(verdict))
              && transitions == old(transitions) + if effect then [Entry(g, result)] else []
    {
      if parentTerminal {
        return Lost;
      }
      parentTerminal := true;
      if !fate.ThrowsBefore? {
        verdict, transitions := Some(result), transitions + [Entry(g, result)];
      }
      if !fate.Returns? && verdict == None {
        parentTerminal := false;
        return Threw;
      }
      return Won;
    }

    method PublishTerminalEventOnce(g: nat, result: GoalResult, ok: bool)
      modifies this`eventPublished, this`events
      ensures eventPublished
      ensures events == old(events) + if ok && !old(eventPublished) then [Entry(g, result)] else []
    {
      if eventPublished {
        return;
      }
      eventPublished := true;
      if ok {
        events := events + [Entry(g, result)];
      }
    }

    method Finish(g: nat, result: GoalResult, fate: Fate, ok: bool) returns (threw: bool)
      requires !parentTerminal && !eventPublished && verdict == None
      modifies this`parentTerminal, this`eventPublished, this`verdict, this`transitions, this`events
      ensures threw == fate.ThrowsBefore?
      ensures threw ==> !parentTerminal && !eventPublished && verdict == None
                        && transitions == old(transitions) && events == old(events)
      ensures !threw ==> verdict == Some(result) && parentTerminal
                         && transitions == old(transitions) + [Entry(g, result)]
                         && events == old(events) + if ok then [Entry(g, result)] else []
    {
      var r := CommitParentTerminal(g, result, fate);
      if r == Won {
        PublishTerminalEventOnce(g, result, ok);
      }
      threw := r == Threw;
    }

    /** One worker thread from start to exit: whatever throws, the logs grow by the plan's verdict and event, and the
        gate reopens exactly when there was a verdict. */
    method Execute(g: nat, p: Plan)
      requires activeGoal && !parentTerminal && !eventPublished && verdict == None
      modifies this
      ensures transitions == old(transitions) + LogFor(g, Verdict(p))
      ensures events == old(events) + LogFor(g, EventFor(p))
      ensures !activeGoal <==> Verdict(p).Some?
      ensures p.work.Ends? && !p.work.fate.ThrowsBefore? ==>
                && transitions == old(transitions) + [Entry(g, p.work.result)]
                && events == old(events) + if p.work.ok then [Entry(g, p.work.result)] else []
      ensures p.work.Throws? || p.work.fate.ThrowsBefore? ==>
                var aborted := [Entry(g, GoalResult(Aborted, SAFE_STOP, 114))];
                && transitions == old(transitions) + (if p.abortFate.ThrowsBefore? then [] else aborted)
                && events == old(events) + (if p.abortFate.ThrowsBefore? || !p.abortOk then [] else aborted)
    {
      var threw := true;
      if p.work.Ends? {
        threw := Finish(g, p.work.result, p.work.fate, p.work.ok);
      }
      if threw {
        var failed := Finish(g, ABORT, p.abortFate, p.abortOk);
      }
      if parentTerminal || verdict.Some? {
        activeGoal := false;
      }
    }
  }
}
