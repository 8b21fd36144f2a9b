/** The history recorder: producers enqueue under a mutex, one worker writes outside it, and stop() drains the queue
    before it joins the worker. Steps are the critical sections; every interleaving of them is a run. */
module Recorder {
  /** The worker waits for work (or has not started), is inside a write, or has left its loop. */
  datatype Worker = AtWait | Writing | Exited

  datatype JoinState = Idle | Joining | Joined

  /** A thread inside stop(): waiting for a running join to end, or in worker_.join() itself. */
  datatype Stopper = AwaitingTurn | InJoin

  /** The first five fields are the object's own; `accepted` and `taken` log the records let in and the records handed
      to the write function, `joins` counts join calls and `returned` the threads that came back from stop(). */
  datatype State<R> = State(
    queue: seq<R>, stopping: bool, persisted: nat, writeErrors: nat, joinState: JoinState,
    worker: Worker, stoppers: map<int, Stopper>, accepted: seq<R>, taken: seq<R>, joins: nat, returned: set<int>)

  function Init<R>(): State<R> {
    State([], false, 0, 0, Idle, AtWait, map[], [], [], 0, {})
  }

  datatype Event<R> =
    | Enqueue(record: R)
    | Take
    | WriteEnds(ok: bool)
    | Leave
    | StopFromWorker
    | StopCalled(t: int)
    | StopTurn(t: int)
    | JoinReturns(t: int)

  function Step<R>(s: State<R>, e: Event<R>, capacity: nat): State<R> {
    match e
    case Enqueue(r) =>
      if s.stopping || |s.queue| >= capacity then s
      else s.(queue := s.queue + [r], accepted := s.accepted + [r])
    case Take =>
      if s.worker.AtWait? && s.queue != [] then
        s.(queue := s.queue[1..], taken := s.taken + [s.queue[0]], worker := Writing)
      else s
    case WriteEnds(ok) =>
      if !s.worker.Writing? then s
      else if ok then s.(persisted := s.persisted + 1, worker := AtWait)
      else s.(writeErrors := s.writeErrors + 1, worker := AtWait)
    case Leave => if s.worker.AtWait? && s.stopping && s.queue == [] then s.(worker := Exited) else s
    case StopFromWorker => if s.worker.Writing? then s.(stopping := true) else s
    case StopCalled(t) =>
      if t in s.stoppers then s else s.(stopping := true, stoppers := s.stoppers[t := AwaitingTurn])
    case StopTurn(t) =>
      if t !in s.stoppers || !s.stoppers[t].AwaitingTurn? || s.joinState.Joining? then s
      else if s.joinState.Joined? then s.(stoppers := s.stoppers - {t}, returned := s.returned + {t})
      else s.(joinState := Joining, stoppers := s.stoppers[t := InJoin], joins := s.joins + 1)
    case JoinReturns(t) =>
      if t !in s.stoppers || !s.stoppers[t].InJoin? || !s.worker.Exited? then s
      else s.(joinState := Joined, stoppers := s.stoppers - {t}, returned := s.returned + {t})
  }

  function Run<R>(events: seq<Event<R>>, capacity: nat): State<R> {
    if events == [] then Init()
    else Step(Run(events[..|events| - 1], capacity), events[|events| - 1], capacity)
  }

  function InFlight<R>(s: State<R>): nat {
    if s.worker.Writing? then 1 else 0
  }

  ghost predicate Inv<R>(s: State<R>, capacity: nat) {
    && s.accepted == s.taken + s.queue
    && |s.taken| == s.persisted + s.writeErrors + InFlight(s)
    && |s.queue| <= capacity
    && (s.worker.Exited? ==> s.stopping && s.queue == [])
    && (s.stoppers != map[] || s.returned != {} ==> s.stopping)
    && (s.returned != {} ==> s.joinState.Joined?)
    && (s.joinState.Joined? ==> s.worker.Exited?)
    && s.joins == (if s.joinState.Idle? then 0 else 1)
    && (s.joinState.Joining? <==> exists t :: t in s.stoppers && s.stoppers[t].InJoin?)
    && (forall t, u :: t in s.stoppers && u in s.stoppers && s.stoppers[t].InJoin? && s.stoppers[u].InJoin? ==> t == u)
  }

  predicate IsStop<R>(e: Event<R>) {
    e.StopCalled? || e.StopTurn? || e.JoinReturns?
  }

  lemma QueueStepKeepsInv<R>(s: State<R>, e: Event<R>, capacity: nat)
    requires Inv(s, capacity) && !IsStop(e)
    ensures Inv(Step(s, e, capacity), capacity)
  {
    if s.queue != [] {
      assert s.queue == [s.queue[0]] + s.queue[1..];
    }
  }

  lemma StopStepKeepsInv<R>(s: State<R>, e: Event<R>, capacity: nat)
    requires Inv(s, capacity) && IsStop(e)
    ensures Inv(Step(s, e, capacity), capacity)
  {
    var n := Step(s, e, capacity);
    if e.StopCalled? {
      assert forall u :: u in s.stoppers ==> u in n.stoppers && n.stoppers[u] == s.stoppers[u];
    } else if e.StopTurn? && n != s && n.joinState.Joining? {
      assert n.stoppers[e.t].InJoin?;
    }
  }

  lemma {:induction false} EveryRunKeepsInv<R>(events: seq<Event<R>>, capacity: nat)
    ensures Inv(Run(events, capacity), capacity)
  {
    if events != [] {
      EveryRunKeepsInv(events[..|events| - 1], capacity);
      if IsStop(events[|events| - 1]) {
        StopStepKeepsInv(Run(events[..|events| - 1], capacity), events[|events| - 1], capacity);
      } else {
        QueueStepKeepsInv(Run(events[..|events| - 1], capacity), events[|events| - 1], capacity);
      }
    }
  }

  ghost predicate Reachable<R(!new)>(s: State<R>, capacity: nat) {
    exists events: seq<Event<R>> :: s == Run(events, capacity)
  }

  /** No record is lost or invented, writes happen in the order of acceptance, and the queue stays bounded. */
  lemma Conservation<R(!new)>(s: State<R>, capacity: nat)
    requires Reachable(s, capacity)
    ensures |s.accepted| == s.persisted + s.writeErrors + |s.queue| + InFlight(s)
    ensures s.taken <= s.accepted && s.accepted[|s.taken|..] == s.queue
    ensures |s.queue| <= capacity
  {
    var events: seq<Event<R>> :| s == Run(events, capacity);
    EveryRunKeepsInv(events, capacity);
  }

  /** A record is let in exactly if the recorder is not stopping and has room; then it is the newest of the queue. */
  lemma AcceptedExactlyWhen<R>(s: State<R>, record: R, capacity: nat)
    ensures var next := Step(s, Enqueue(record), capacity);
            if !s.stopping && |s.queue| < capacity
            then next == s.(queue := s.queue + [record], accepted := s.accepted + [record])
            else next == s
  {
  }

  /** The worker takes the oldest record and counts how its write ended. */
  lemma WriteIsCounted<R>(s: State<R>, ok: bool, capacity: nat)
    requires s.worker.AtWait? && s.queue != []
    ensures var next := Step(Step(s, Take, capacity), WriteEnds(ok), capacity);
            && next.queue == s.queue[1..] && next.taken == s.taken + [s.queue[0]] && next.worker.AtWait?
            && next.persisted == s.persisted + (if ok then 1 else 0)
            && next.writeErrors == s.writeErrors + (if ok then 0 else 1)
  {
  }

  /** stop() closes the intake at once, for a thread that joins as well as for the worker in its write. */
  lemma StopClosesIntake<R>(s: State<R>, t: int, record: R, capacity: nat)
    requires t !in s.stoppers && s.worker.Writing?
    ensures var stopped, inWrite := Step(s, StopCalled(t), capacity), Step(s, StopFromWorker, capacity);
            && stopped == s.(stopping := true, stoppers := s.stoppers[t := AwaitingTurn])
            && inWrite == s.(stopping := true)
            && Step(stopped, Enqueue(record), capacity) == stopped
            && Step(inWrite, Enqueue(record), capacity) == inWrite
  {
  }

  /** A thread returns from stop() when the worker was joined, by itself or by another. */
  lemma StopReturnsAfterJoin<R>(s: State<R>, t: int, capacity: nat)
    requires t in s.stoppers
    ensures s.stoppers[t].AwaitingTurn? && s.joinState.Joined? ==>
              Step(s, StopTurn(t), capacity) == s.(stoppers := s.stoppers - {t}, returned := s.returned + {t})
    ensures s.stoppers[t].AwaitingTurn? && s.joinState.Idle? ==>
              Step(s, StopTurn(t), capacity)
              == s.(joinState := Joining, stoppers := s.stoppers[t := InJoin], joins := s.joins + 1)
    ensures s.stoppers[t].InJoin? && s.worker.Exited? ==>
              Step(s, JoinReturns(t), capacity)
              == s.(joinState := Joined, stoppers := s.stoppers - {t}, returned := s.returned + {t})
  {
  }

  lemma NothingMovesAfterReturn<R>(s: State<R>, e: Event<R>, capacity: nat)
    requires Inv(s, capacity) && s.returned != {}
    ensures var n := Step(s, e, capacity);
            && n.returned != {} && n.accepted == s.accepted
            && n.persisted == s.persisted && n.writeErrors == s.writeErrors
  {
  }

  lemma ReturnedMeansDrained<R(!new)>(s: State<R>, capacity: nat)
    requires Inv(s, capacity) && s.returned != {}
    ensures |s.accepted| == s.persisted + s.writeErrors && s.taken == s.accepted
  {
    assert s.taken + [] == s.taken;
  }

  /** What stop() leaves behind for good. */
  ghost predicate Settled<R>(s: State<R>, later: State<R>) {
    && later.returned != {} && later.accepted == s.accepted
    && later.persisted == s.persisted && later.writeErrors == s.writeErrors
  }

  lemma {:induction false} SettledForGood<R>(events: seq<Event<R>>, more: seq<Event<R>>, capacity: nat)
    requires Run(events, capacity).returned != {}
    ensures Settled(Run(events, capacity), Run(events + more, capacity))
    decreases |more|
  {
    if more == [] {
      assert events + more == events;
    } else {
      var k := |more| - 1;
      SettledForGood(events, more[..k], capacity);
      EveryRunKeepsInv(events + more[..k], capacity);
      NothingMovesAfterReturn(Run(events + more[..k], capacity), more[k], capacity);
      assert (events + more)[..|events| + k] == events + more[..k];
    }
  }

  /** The worker is joined at most once; when stop() has returned to any thread but the worker, every record that was
      ever accepted is counted as persisted or failed, and no later step changes that. */
  lemma StopDrains<R(!new)>(events: seq<Event<R>>, more: seq<Event<R>>, capacity: nat)
    ensures Run(events, capacity).joins <= 1
    ensures var s, later := Run(events, capacity), Run(events + more, capacity);
            s.returned != {} ==>
              |s.accepted| == s.persisted + s.writeErrors && s.taken == s.accepted && Settled(s, later)
  {
    EveryRunKeepsInv(events, capacity);
    if Run(events, capacity).returned != {} {
      ReturnedMeansDrained(Run(events, capacity), capacity);
      SettledForGood(events, more, capacity);
    }
  }

  /** stop() cannot get stuck: while a thread is inside it, the worker or some thread inside stop() can move. */
  lemma StopNeverDeadlocks<R>(events: seq<Event<R>>, capacity: nat, t: int) returns (e: Event<R>)
    requires t in Run(events, capacity).stoppers
    ensures !e.Enqueue? && !e.StopCalled? && !e.StopFromWorker?
    ensures Step(Run(events, capacity), e, capacity) != Run(events, capacity)
  {
    var s := Run(events, capacity);
    EveryRunKeepsInv(events, capacity);
    if s.worker.Writing? {
      e := WriteEnds(true);
    } else if s.worker.AtWait? {
      e := if s.queue == [] then Leave else Take;
      if s.queue != [] {
        assert Step(s, e, capacity).worker.Writing?;
      }
    } else if s.stoppers[t].AwaitingTurn? && !s.joinState.Joining? {
      e := StopTurn(t);
      assert t !in Step(s, e, capacity).stoppers || Step(s, e, capacity).stoppers[t].InJoin?;
    } else {
      var u :| u in s.stoppers && s.stoppers[u].InJoin?;
      e := JoinReturns(u);
      assert u !in Step(s, e, capacity).stoppers;
    }
  }

  function Successful(writes: seq<bool>): seq<bool> {
    if writes == [] then []
    else Successful(writes[..|writes| - 1]) + if writes[|writes| - 1] then [true] else []
  }

  /** The object itself; each method is one critical section, or the worker's loop while it is alone. */
  class Queue<R> {
    const capacity: nat
    var queue: seq<R>
    var stopping: bool
    var persisted: nat
    var writeErrors: nat
    var joinState: JoinState

    constructor (capacity: nat)
      ensures this.capacity == capacity && queue == [] && !stopping
      ensures persisted == writeErrors == 0 && joinState == Idle
    {
      this.capacity := capacity;
      queue, stopping, persisted, writeErrors, joinState := [], false, 0, 0, Idle;
    }

    method Enqueue(record: R) returns (ok: bool)
      modifies this`queue
      ensures ok <==> !stopping && |old(queue)| < capacity
      ensures queue == if ok then old(queue) + [record] else old(queue)
    {
      if stopping || |queue| >= capacity {
        return false;
      }
      queue := queue + [record];
      return true;
    }

    /** What a thread in stop() does when no join is running: true means that it must join the worker. */
    method ClaimJoin() returns (mine: bool)
      requires joinState != Joining
      modifies this`joinState
      ensures mine <==> old(joinState) == Idle
      ensures joinState == if mine then Joining else old(joinState)
    {
      if joinState == Joined {
        return false;
      }
      joinState := Joining;
      return true;
    }

    method Count(written: bool)
      modifies this`persisted, this`writeErrors
      ensures persisted == old(persisted) + if written then 1 else 0
      ensures writeErrors == old(writeErrors) + if written then 0 else 1
    {
      if written {
        persisted := persisted + 1;
      } else {
        writeErrors := writeErrors + 1;
      }
    }

    /** The worker's loop after stopping was set: it writes the whole queue, oldest first, and then leaves. `writes`
        says how each write ends. */
    method Drain(writes: seq<bool>) returns (written: seq<R>)
      requires stopping && |writes| == |queue|
      modifies this`queue, this`persisted, this`writeErrors
      ensures queue == [] && written == old(queue)
      ensures persisted + writeErrors == old(persisted + writeErrors) + |old(queue)|
      ensures persisted == old(persisted) + |Successful(writes)|
    {
      written := [];
      assert writes[..0] == [];
      while queue != []
        invariant written + queue == old(queue)
        invariant persisted + writeErrors == old(persisted + writeErrors) + |written|
        invariant persisted == old(persisted) + |Successful(writes[..|written|])|
        decreases |queue|
      {
        var record := queue[0];
        var ok := writes[|written|];
        assert writes[..|written| + 1][..|written|] == writes[..|written|];
        queue, written := queue[1..], written + [record];
        Count(ok);
      }
      assert writes[..|written|] == writes;
    }
  }
}
