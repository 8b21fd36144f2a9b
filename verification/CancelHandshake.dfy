/** The handshake behind every child cancel: a requester wants the child cancelled, the child's handle may arrive
    later on another thread, and dispatching the cancel may fail. Proved once here; the executor, the orchestrator and
    the gateway are instances. */
module CancelHandshake {

  datatype Handle = Unknown | RefusedHandle | Known

  /** The right to dispatch: free, held by the dispatching thread, or used up by a success. */
  datatype Token = Free | Held(t: int) | Spent

  /** `committed` are the threads on their way to a dispatch; `lastThrew` says how the latest finished attempt ended. */
  datatype Handshake = Handshake(
    requested: bool, handle: Handle, live: bool, token: Token, committed: set<int>,
    lastThrew: bool, gaveUp: bool, successes: nat)

  const START := Handshake(false, Unknown, true, Free, {}, false, false, 0)

  datatype Action =
    | Request(t: int)
    | Respond(t: int, accepted: bool)
    | Retry(t: int)
    | Take(t: int)
    | Drop(t: int)
    | Succeed(t: int)
    | Throw(t: int)
    | GiveUp(t: int)
    | Finish

  function Act(h: Handshake, a: Action): Handshake {
    match a
    case Request(t) =>
      h.(requested := true, committed := if h.handle.Known? then h.committed + {t} else h.committed)
    case Respond(t, accepted) =>
      if !h.handle.Unknown? then h
      else if !accepted then h.(handle := RefusedHandle)
      else h.(handle := Known, committed := if h.requested then h.committed + {t} else h.committed)
    case Retry(t) =>
      if h.requested && h.handle.Known? then h.(committed := h.committed + {t}) else h
    case Take(t) =>
      if t in h.committed && h.token.Free? then
        h.(committed := h.committed - {t}, token := Held(t), lastThrew := false)
      else h
    case Drop(t) =>
      if !h.token.Free? || !h.live then h.(committed := h.committed - {t}) else h
    case Succeed(t) =>
      if h.token == Held(t) then h.(token := Spent, successes := h.successes + 1) else h
    case Throw(t) =>
      if h.token == Held(t) then h.(token := Free, lastThrew := true) else h
    case GiveUp(t) => h.(committed := h.committed - {t}, gaveUp := true)
    case Finish => h.(live := false)
  }

  function ActAll(h: Handshake, actions: seq<Action>): Handshake
    decreases |actions|
  {
    if actions == [] then h else ActAll(Act(h, actions[0]), actions[1..])
  }

  /** A cancel that is wanted and possible is in somebody's hands, was delivered, or visibly failed; it is never
      silently lost, and never delivered twice. */
  ghost predicate Safe(h: Handshake) {
    && (h.requested && h.handle.Known? && h.live ==>
          h.committed != {} || h.token.Held? || h.token.Spent? || h.lastThrew || h.gaveUp)
    && h.successes == (if h.token.Spent? then 1 else 0)
    && (h.lastThrew ==> h.token.Free?)
  }

  lemma ActKeepsSafe(h: Handshake, a: Action)
    requires Safe(h)
    ensures Safe(Act(h, a))
  {
    match a
    case Request(t) => assert t in h.committed + {t};
    case Respond(t, accepted) => assert t in h.committed + {t};
    case Retry(t) => assert t in h.committed + {t};
    case _ =>
  }

  lemma {:induction false} ActAllKeepsSafe(h: Handshake, actions: seq<Action>)
    requires Safe(h)
    ensures Safe(ActAll(h, actions))
    decreases |actions|
  {
    if actions != [] {
      ActKeepsSafe(h, actions[0]);
      ActAllKeepsSafe(Act(h, actions[0]), actions[1..]);
    }
  }

  /** The state of an instance after some of its events. */
  function Fold<S, E>(step: (S, E) -> S, s: S, events: seq<E>): S {
    if events == [] then s else step(Fold(step, s, events[..|events| - 1]), events[|events| - 1])
  }

  lemma {:induction false} FoldKeeps<S(!new), E(!new)>(inv: S -> bool, step: (S, E) -> S, s: S, events: seq<E>)
    requires inv(s) && forall s, e :: inv(s) ==> inv(step(s, e))
    ensures inv(Fold(step, s, events))
  {
    if events != [] {
      FoldKeeps(inv, step, s, events[..|events| - 1]);
    }
  }

  lemma One(h: Handshake, a: Action)
    ensures ActAll(h, [a]) == Act(h, a)
  {
    assert [a][1..] == [];
  }

  lemma Two(h: Handshake, a: Action, b: Action)
    ensures ActAll(h, [a, b]) == Act(Act(h, a), b)
  {
    assert [a, b][1..] == [b];
    One(Act(h, a), b);
  }

  lemma Three(h: Handshake, a: Action, b: Action, c: Action)
    ensures ActAll(h, [a, b, c]) == Act(Act(Act(h, a), b), c)
  {
    assert [a, b, c][1..] == [b, c];
    Two(Act(h, a), b, c);
  }

  /** The outcomes of the finished dispatch attempts, oldest first. */
  function Successes(attempts: seq<bool>): nat {
    if attempts == [] then 0
    else Successes(attempts[..|attempts| - 1]) + if attempts[|attempts| - 1] then 1 else 0
  }

  predicate LastFailed(attempts: seq<bool>) {
    attempts != [] && !attempts[|attempts| - 1]
  }

  lemma Logged(attempts: seq<bool>, ok: bool)
    ensures Successes(attempts + [ok]) == Successes(attempts) + if ok then 1 else 0
    ensures LastFailed(attempts + [ok]) == !ok
  {
    assert (attempts + [ok])[..|attempts|] == attempts;
  }
}
