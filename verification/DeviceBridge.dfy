/** The device bridge: one goal at a time, at most one retry, and STOP for every goal that may still be running.
    What the environment shows the bridge during one goal (cancel flag, socket results, clock) is a script. */
module DeviceBridge {
  import opened Common
  import opened Outcomes
  import opened CanProtocol
  import CommandIds
  import TimeBudget
  import VirtualDevice

  const ERROR_INVALID_GOAL: uint16 := 100
  const ERROR_TRANSPORT: uint16 := 200
  const ERROR_ACK_TIMEOUT: uint16 := 201
  const ERROR_SHUTDOWN: uint16 := 202
  const ERROR_STOP_TIMEOUT: uint16 := 204
  const ERROR_STOP_REJECTED: uint16 := 205
  const ERROR_DEVICE_REJECTED_BASE: uint16 := 300

  datatype Rx = RxTimeout | RxError | RxFrame(frame: RawFrame)

  /** What one pass of the receive loop observes. */
  datatype Poll = Poll(running: bool, canceling: bool, rx: Rx)

  /** The passes before the deadline, and the flags of the pass that finds the deadline reached. */
  datatype Window = Window(polls: seq<Poll>, runningAtEnd: bool, cancelingAtEnd: bool)

  datatype WaitResult = GotResponse(response: Response) | TimedOut | CancelSeen | TransportError | ShutdownSeen

  datatype Attempt = Attempt(cancelingBefore: bool, sendOk: bool, window: Window, cancelingAfter: bool)

  datatype Script = Script(first: Attempt, second: Attempt, stopSendOk: bool, stopWindow: Window)

  datatype WireEvent = Sent(frame: RawFrame) | SendFailed(frame: RawFrame)

  datatype Goal = Goal(commandId: uint32, opcode: uint8, argument: int32, ackTimeout: TimeBudget.Duration)

  /** The response carried by a received frame if it is well formed and has the awaited id. */
  function Matching(rx: Rx, expected: uint16): Option<Response> {
    match rx
    case RxFrame(frame) =>
      var decoded := DecodeResponse(frame);
      if decoded.Decoded? && decoded.value.commandId == expected then Some(decoded.value) else None
    case _ => None
  }

  function Receive(w: Window, expected: uint16, observeCancel: bool): WaitResult
    decreases |w.polls|
  {
    if w.polls == [] then
      if !w.runningAtEnd then ShutdownSeen
      else if observeCancel && w.cancelingAtEnd then CancelSeen
      else TimedOut
    else
      var p := w.polls[0];
      if !p.running then ShutdownSeen
      else if observeCancel && p.canceling then CancelSeen
      else if p.rx.RxError? then TransportError
      else match Matching(p.rx, expected)
        case Some(response) => GotResponse(response)
        case None => Receive(w.(polls := w.polls[1..]), expected, observeCancel)
  }

  /** A pass after which the loop goes on: nothing arrived, or a frame that is malformed or has another id. */
  ghost predicate Skipped(p: Poll, expected: uint16, observeCancel: bool) {
    && p.running
    && !(observeCancel && p.canceling)
    && !p.rx.RxError?
    && forall response: Response :: response.commandId == expected ==> p.rx != RxFrame(EncodeResponse(response))
  }

  ghost predicate FirstMatch(w: Window, expected: uint16, observeCancel: bool, response: Response, k: nat) {
    && k < |w.polls|
    && (forall i :: 0 <= i < k ==> Skipped(w.polls[i], expected, observeCancel))
    && w.polls[k].running
    && !(observeCancel && w.polls[k].canceling)
    && w.polls[k].rx == RxFrame(EncodeResponse(response))
    && response.commandId == expected
  }

  lemma MatchingIsEncoding(rx: Rx, expected: uint16, response: Response)
    ensures Matching(rx, expected) == Some(response) <==>
            rx == RxFrame(EncodeResponse(response)) && response.commandId == expected
  {
    if rx.RxFrame? {
      ResponseFrameIsCanonical(rx.frame, response);
    }
  }

  lemma SkippedIsUnmatched(p: Poll, expected: uint16, observeCancel: bool)
    ensures Skipped(p, expected, observeCancel) <==>
            p.running && !(observeCancel && p.canceling) && !p.rx.RxError? && Matching(p.rx, expected) == None
  {
    var found := Matching(p.rx, expected);
    if found.Some? {
      MatchingIsEncoding(p.rx, expected, found.value);
    }
    forall response: Response | response.commandId == expected && found == None
      ensures p.rx != RxFrame(EncodeResponse(response))
    {
      MatchingIsEncoding(p.rx, expected, response);
    }
  }

  /** A response is returned exactly when it is the first frame in the window that encodes a response with the
      awaited id, and the loop was still running, uncancelled and free of socket errors up to it. */
  lemma {:induction false} ReceiveReturnsFirstMatch(
      w: Window, expected: uint16, observeCancel: bool, response: Response)
    ensures Receive(w, expected, observeCancel) == GotResponse(response) <==>
            exists k: nat :: FirstMatch(w, expected, observeCancel, response, k)
    decreases |w.polls|
  {
    if w.polls != [] {
      var p, rest := w.polls[0], w.(polls := w.polls[1..]);
      SkippedIsUnmatched(p, expected, observeCancel);
      MatchingIsEncoding(p.rx, expected, response);
      ReceiveReturnsFirstMatch(rest, expected, observeCancel, response);
      if Skipped(p, expected, observeCancel) {
        if k: nat :| FirstMatch(rest, expected, observeCancel, response, k) {
          assert FirstMatch(w, expected, observeCancel, response, k + 1);
        }
        if k: nat :| FirstMatch(w, expected, observeCancel, response, k) {
          assert k > 0;
          forall i | 0 <= i < k - 1 ensures Skipped(rest.polls[i], expected, observeCancel) {
            assert Skipped(w.polls[i + 1], expected, observeCancel);
          }
          assert FirstMatch(rest, expected, observeCancel, response, k - 1);
        }
      } else {
        if k: nat :| FirstMatch(w, expected, observeCancel, response, k) {
          assert k == 0;
        }
        if Receive(w, expected, observeCancel) == GotResponse(response) {
          assert FirstMatch(w, expected, observeCancel, response, 0);
        }
      }
    }
  }

  /** An id that the allocator of `mine` issued less than a cycle before its `j`-th, or that belongs to the other
      allocator. */
  ghost predicate Outdated(id: uint16, mine: CommandIds.Range, next: uint16, j: nat, other: CommandIds.Range)
    requires CommandIds.Proper(mine) && CommandIds.Proper(other)
  {
    || (exists i: nat :: i < j < i + CommandIds.Size(mine) && id == CommandIds.IssuedId(mine, next, i))
    || (exists nextOther: uint16, k: nat :: id == CommandIds.IssuedId(other, nextOther, k))
  }

  ghost predicate OnlyOutdated(
      w: Window, mine: CommandIds.Range, next: uint16, j: nat, other: CommandIds.Range)
    requires CommandIds.Proper(mine) && CommandIds.Proper(other)
  {
    forall k :: 0 <= k < |w.polls| && w.polls[k].rx.RxFrame? && DecodeResponse(w.polls[k].rx.frame).Decoded? ==>
      Outdated(DecodeResponse(w.polls[k].rx.frame).value.commandId, mine, next, j, other)
  }

  lemma OutdatedIdDiffers(id: uint16, mine: CommandIds.Range, next: uint16, j: nat, other: CommandIds.Range)
    requires (mine == CommandIds.APPLICATION && other == CommandIds.STOP)
             || (mine == CommandIds.STOP && other == CommandIds.APPLICATION)
    requires Outdated(id, mine, next, j, other)
    ensures id != CommandIds.IssuedId(mine, next, j)
  {
    CommandIds.IssuedIdsDistinct(mine, next, j, j);
    if i: nat :| i < j < i + CommandIds.Size(mine) && id == CommandIds.IssuedId(mine, next, i) {
      CommandIds.IssuedIdsDistinct(mine, next, i, j);
    } else {
      var nextOther: uint16, k: nat :| id == CommandIds.IssuedId(other, nextOther, k);
      CommandIds.IssuedIdsDistinct(other, nextOther, k, k);
    }
  }

  /** Response matching never crosses commands: if every well-formed frame on the bus answers an earlier command of the
      cycle or one of the other allocator, the wait for the `j`-th id, command or STOP, gets no response. */
  lemma {:induction false} OutdatedFramesNeverAnswer(
      w: Window, mine: CommandIds.Range, next: uint16, j: nat, other: CommandIds.Range, observeCancel: bool)
    requires (mine == CommandIds.APPLICATION && other == CommandIds.STOP)
             || (mine == CommandIds.STOP && other == CommandIds.APPLICATION)
    requires OnlyOutdated(w, mine, next, j, other)
    ensures 0 <= CommandIds.IssuedId(mine, next, j) < 0x1_0000
    ensures !Receive(w, CommandIds.IssuedId(mine, next, j), observeCancel).GotResponse?
    decreases |w.polls|
  {
    CommandIds.IssuedIdsDistinct(mine, next, j, j);
    if w.polls != [] {
      var rx, rest := w.polls[0].rx, w.(polls := w.polls[1..]);
      if rx.RxFrame? && DecodeResponse(rx.frame).Decoded? {
        OutdatedIdDiffers(DecodeResponse(rx.frame).value.commandId, mine, next, j, other);
      }
      assert forall k :: 0 <= k < |rest.polls| ==> rest.polls[k] == w.polls[k + 1];
      OutdatedFramesNeverAnswer(rest, mine, next, j, other, observeCancel);
    }
  }

  // How a wait ends

  /** The loop goes past the first `k` passes. */
  ghost predicate SkippedUpTo(w: Window, expected: uint16, observeCancel: bool, k: nat) {
    k <= |w.polls| && forall i :: 0 <= i < k ==> Skipped(w.polls[i], expected, observeCancel)
  }

  /** Nothing comes, and the deadline finds the node running and no cancel to observe. */
  ghost predicate Unanswered(w: Window, expected: uint16, observeCancel: bool) {
    SkippedUpTo(w, expected, observeCancel, |w.polls|) && w.runningAtEnd && !(observeCancel && w.cancelingAtEnd)
  }

  /** The socket fails. */
  ghost predicate Broken(w: Window, expected: uint16, observeCancel: bool) {
    exists k: nat ::
      && k < |w.polls| && SkippedUpTo(w, expected, observeCancel, k)
      && w.polls[k].running && !(observeCancel && w.polls[k].canceling) && w.polls[k].rx.RxError?
  }

  /** The node stops. */
  ghost predicate CutShort(w: Window, expected: uint16, observeCancel: bool) {
    exists k: nat ::
      && SkippedUpTo(w, expected, observeCancel, k)
      && if k == |w.polls| then !w.runningAtEnd else !w.polls[k].running
  }

  /** A cancel is seen. */
  ghost predicate CanceledIn(w: Window, expected: uint16) {
    exists k: nat ::
      && SkippedUpTo(w, expected, true, k)
      && if k == |w.polls| then w.runningAtEnd && w.cancelingAtEnd else w.polls[k].running && w.polls[k].canceling
  }

  lemma {:induction false} ReceiveSkips(w: Window, expected: uint16, observeCancel: bool, k: nat)
    requires SkippedUpTo(w, expected, observeCancel, k)
    ensures Receive(w, expected, observeCancel) == Receive(w.(polls := w.polls[k..]), expected, observeCancel)
    decreases k
  {
    if k == 0 {
      assert w.polls[0..] == w.polls;
    } else {
      var rest := w.(polls := w.polls[1..]);
      SkippedIsUnmatched(w.polls[0], expected, observeCancel);
      assert forall i :: 0 <= i < k - 1 ==> rest.polls[i] == w.polls[i + 1];
      ReceiveSkips(rest, expected, observeCancel, k - 1);
      assert rest.polls[k - 1..] == w.polls[k..];
    }
  }

  lemma {:induction false} WaitEndsSomewhere(w: Window, expected: uint16, observeCancel: bool) returns (k: nat)
    ensures SkippedUpTo(w, expected, observeCancel, k)
    ensures k < |w.polls| ==> !Skipped(w.polls[k], expected, observeCancel)
    decreases |w.polls|
  {
    k := 0;
    if w.polls != [] && Skipped(w.polls[0], expected, observeCancel) {
      var rest := w.(polls := w.polls[1..]);
      var n := WaitEndsSomewhere(rest, expected, observeCancel);
      k := n + 1;
      forall i | 0 <= i < k ensures Skipped(w.polls[i], expected, observeCancel) {
        assert i > 0 ==> Skipped(rest.polls[i - 1], expected, observeCancel);
      }
    }
  }

  /** What is answered at the pass that ends the wait. */
  lemma WaitEndsWith(w: Window, expected: uint16, observeCancel: bool, k: nat)
    requires SkippedUpTo(w, expected, observeCancel, k)
    requires k < |w.polls| ==> !Skipped(w.polls[k], expected, observeCancel)
    ensures var wait := Receive(w, expected, observeCancel);
            if k == |w.polls| then
              wait == if !w.runningAtEnd then ShutdownSeen
                      else if observeCancel && w.cancelingAtEnd then CancelSeen else TimedOut
            else
              var p := w.polls[k];
              if !p.running then wait == ShutdownSeen
              else if observeCancel && p.canceling then wait == CancelSeen
              else if p.rx.RxError? then wait == TransportError
              else wait.GotResponse?
  {
    hide Matching;
    ReceiveSkips(w, expected, observeCancel, k);
    if k < |w.polls| {
      SkippedIsUnmatched(w.polls[k], expected, observeCancel);
      assert w.polls[k..][0] == w.polls[k];
    }
  }

  lemma EndingPassIsUnique(w: Window, expected: uint16, observeCancel: bool, k: nat, n: nat)
    requires SkippedUpTo(w, expected, observeCancel, k) && SkippedUpTo(w, expected, observeCancel, n)
    requires n < |w.polls| ==> !Skipped(w.polls[n], expected, observeCancel)
    requires k < |w.polls| ==>
               var p := w.polls[k]; !p.running || (observeCancel && p.canceling) || p.rx.RxError?
    ensures k == n
  {
  }

  /** Exactly when a wait ends without a response, and how. */
  lemma ReceiveEndsExactly(w: Window, expected: uint16, observeCancel: bool)
    ensures var wait := Receive(w, expected, observeCancel);
            && (wait.TimedOut? <==> Unanswered(w, expected, observeCancel))
            && (wait.TransportError? <==> Broken(w, expected, observeCancel))
            && (wait.ShutdownSeen? <==> CutShort(w, expected, observeCancel))
            && (wait.CancelSeen? <==> observeCancel && CanceledIn(w, expected))
  {
    hide Receive, Skipped;
    var n := WaitEndsSomewhere(w, expected, observeCancel);
    WaitEndsWith(w, expected, observeCancel, n);
    if k: nat :|
         && k < |w.polls| && SkippedUpTo(w, expected, observeCancel, k)
         && w.polls[k].running && !(observeCancel && w.polls[k].canceling) && w.polls[k].rx.RxError?
    {
      EndingPassIsUnique(w, expected, observeCancel, k, n);
    }
    if k: nat :|
         && SkippedUpTo(w, expected, observeCancel, k)
         && if k == |w.polls| then !w.runningAtEnd else !w.polls[k].running
    {
      EndingPassIsUnique(w, expected, observeCancel, k, n);
    }
    if observeCancel {
      if k: nat :|
           && SkippedUpTo(w, expected, true, k)
           && if k == |w.polls| then w.runningAtEnd && w.cancelingAtEnd
              else w.polls[k].running && w.polls[k].canceling
      {
        EndingPassIsUnique(w, expected, observeCancel, k, n);
      }
    }
    if Unanswered(w, expected, observeCancel) && n < |w.polls| {
      assert false;
    }
  }

  /** Why the command phase of a goal ended. */
  datatype Ending =
    | CanceledBeforeSend
    | CanceledAfterSend
    | SendFailure
    | Responded(response: Response)
    | ReceiveFailure
    | Interrupted
    | AckTimeout

  function AttemptEnding(command: Command, a: Attempt, alreadySent: bool): Ending {
    if a.cancelingBefore then if alreadySent then CanceledAfterSend else CanceledBeforeSend
    else if !a.sendOk then SendFailure
    else match Receive(a.window, command.commandId, true)
      case GotResponse(response) => if a.cancelingAfter then CanceledAfterSend else Responded(response)
      case CancelSeen => CanceledAfterSend
      case TransportError => ReceiveFailure
      case ShutdownSeen => Interrupted
      case TimedOut => AckTimeout
  }

  function AttemptWire(command: Command, a: Attempt): seq<WireEvent> {
    if a.cancelingBefore then []
    else if a.sendOk then [Sent(EncodeCommand(command))] else [SendFailed(EncodeCommand(command))]
  }

  function GoalEnding(command: Command, s: Script): Ending {
    var ending := AttemptEnding(command, s.first, false);
    if ending.AckTimeout? then AttemptEnding(command, s.second, true) else ending
  }

  function CommandWire(command: Command, s: Script): seq<WireEvent> {
    AttemptWire(command, s.first)
    + if AttemptEnding(command, s.first, false).AckTimeout? then AttemptWire(command, s.second) else []
  }

  predicate NeedsStop(ending: Ending) {
    ending.CanceledAfterSend? || ending.ReceiveFailure? || ending.Interrupted? || ending.AckTimeout?
  }

  function StopCommand(stopId: uint16, command: Command): Command {
    Command(stopId, STOP_OPCODE, command.commandId)
  }

  function StopWire(command: Command, stopId: uint16, s: Script): seq<WireEvent> {
    var frame := EncodeCommand(StopCommand(stopId, command));
    if !NeedsStop(GoalEnding(command, s)) then []
    else if s.stopSendOk then [Sent(frame)] else [SendFailed(frame)]
  }

  function GoalWire(command: Command, stopId: uint16, s: Script): seq<WireEvent> {
    CommandWire(command, s) + StopWire(command, stopId, s)
  }

  function StopOutcome(stopId: uint16, sendOk: bool, window: Window, canceled: bool, errorCode: uint16): GoalResult {
    if !sendOk then SafeStop(ERROR_TRANSPORT)
    else match Receive(window, stopId, false)
      case GotResponse(r) =>
        if r.resultCode == 0 && r.deviceMode == VirtualDevice.MODE_STOPPED then
          if canceled then GoalResult(Canceled, CANCELED, 0) else SafeStop(errorCode)
        else SafeStop(ERROR_STOP_REJECTED)
      case TimedOut => SafeStop(ERROR_STOP_TIMEOUT)
      case TransportError | ShutdownSeen => SafeStop(ERROR_TRANSPORT)
      case CancelSeen => SafeStop(ERROR_STOP_REJECTED)
  }

  function GoalOutcome(command: Command, stopId: uint16, s: Script): GoalResult {
    var ending := GoalEnding(command, s);
    match ending
    case CanceledBeforeSend => GoalResult(Canceled, CANCELED, 0)
    case SendFailure => SafeStop(ERROR_TRANSPORT)
    case Responded(r) =>
      if r.resultCode == 0 then GoalResult(Succeeded, COMPLETED, 0)
      else GoalResult(Aborted, DEVICE_FAULT, ERROR_DEVICE_REJECTED_BASE + r.resultCode)
    case CanceledAfterSend => StopOutcome(stopId, s.stopSendOk, s.stopWindow, true, 0)
    case ReceiveFailure => StopOutcome(stopId, s.stopSendOk, s.stopWindow, false, ERROR_TRANSPORT)
    case Interrupted => StopOutcome(stopId, s.stopSendOk, s.stopWindow, false, ERROR_SHUTDOWN)
    case AckTimeout => StopOutcome(stopId, s.stopSendOk, s.stopWindow, false, ERROR_ACK_TIMEOUT)
  }

  /** The bridge node: its busy gate, its STOP counter, and the frames it put on the bus. */
  class Bridge {
    const maxAckTimeoutMs: int64
    var activeGoal: bool
    var nextStopId: uint16
    var wire: seq<WireEvent>

    ghost predicate Valid()
      reads this
    {
      CanProtocol.STOP_COMMAND_ID_MIN <= nextStopId
    }

    constructor (maxAckTimeoutMs: int64)
      requires maxAckTimeoutMs > 0
      ensures Valid() && !activeGoal && wire == [] && nextStopId == 0x8000
    {
      this.maxAckTimeoutMs := maxAckTimeoutMs;
      activeGoal := false;
      nextStopId := STOP_COMMAND_ID_MIN;
      wire := [];
    }

    /** A goal is taken only while no other goal holds the wire. */
    method HandleGoal(goal: Goal, socketOpen: bool) returns (accepted: bool)
      modifies this`activeGoal
      ensures accepted <==>
              && 1 <= goal.commandId <= 0xFFFF
              && TimeBudget.ToMilliseconds(goal.ackTimeout, maxAckTimeoutMs).Some?
              && socketOpen
              && !old(activeGoal)
      ensures activeGoal == (old(activeGoal) || accepted)
    {
      if goal.commandId == 0 || goal.commandId > 0xFFFF {
        return false;
      }
      if TimeBudget.ToMilliseconds(goal.ackTimeout, maxAckTimeoutMs) == None {
        return false;
      }
      if !socketOpen || activeGoal {
        return false;
      }
      activeGoal := true;
      accepted := true;
    }

    method ReceiveResponse(w: Window, expected: uint16, observeCancel: bool) returns (result: WaitResult)
      ensures result == Receive(w, expected, observeCancel)
    {
      var i := 0;
      while i < |w.polls|
        invariant 0 <= i <= |w.polls|
        invariant Receive(w.(polls := w.polls[i..]), expected, observeCancel)
                  == Receive(w, expected, observeCancel)
      {
        var p := w.polls[i];
        assert w.polls[i..][1..] == w.polls[i + 1..];
        if !p.running {
          return ShutdownSeen;
        }
        if observeCancel && p.canceling {
          return CancelSeen;
        }
        if p.rx == RxError {
          return TransportError;
        }
        if p.rx.RxFrame? {
          var decoded := DecodeResponse(p.rx.frame);
          if decoded.Decoded? && decoded.value.commandId == expected {
            return GotResponse(decoded.value);
          }
        }
        i := i + 1;
      }
      if !w.runningAtEnd {
        return ShutdownSeen;
      }
      if observeCancel && w.cancelingAtEnd {
        return CancelSeen;
      }
      return TimedOut;
    }

    method Send(frame: RawFrame, ok: bool)
      modifies this`wire
      ensures wire == old(wire) + [if ok then Sent(frame) else SendFailed(frame)]
    {
      wire := wire + [if ok then Sent(frame) else SendFailed(frame)];
    }

    method AllocateStopCommandId() returns (id: uint16)
      requires Valid()
      modifies this`nextStopId
      ensures Valid()
      ensures id == old(nextStopId) && nextStopId == CommandIds.NextStopId(old(nextStopId))
    {
      id := nextStopId;
      nextStopId := if nextStopId == 0xFFFF then STOP_COMMAND_ID_MIN else nextStopId + 1;
    }

    method StopAndFinish(command: Command, s: Script, canceled: bool, errorCode: uint16) returns (result: GoalResult)
      requires Valid()
      modifies this`wire, this`nextStopId
      ensures Valid()
      ensures nextStopId == CommandIds.NextStopId(old(nextStopId))
      ensures result == StopOutcome(old(nextStopId), s.stopSendOk, s.stopWindow, canceled, errorCode)
      ensures var frame := EncodeCommand(StopCommand(old(nextStopId), command));
              wire == old(wire) + [if s.stopSendOk then Sent(frame) else SendFailed(frame)]
    {
      var stopId := AllocateStopCommandId();
      Send(EncodeCommand(StopCommand(stopId, command)), s.stopSendOk);
      if !s.stopSendOk {
        return SafeStop(ERROR_TRANSPORT);
      }
      var wait := ReceiveResponse(s.stopWindow, stopId, false);
      if wait.GotResponse? && wait.response.resultCode == 0
         && wait.response.deviceMode == VirtualDevice.MODE_STOPPED
      {
        return if canceled then GoalResult(Canceled, CANCELED, 0) else SafeStop(errorCode);
      }
      if wait == TimedOut {
        return SafeStop(ERROR_STOP_TIMEOUT);
      }
      if wait == TransportError || wait == ShutdownSeen {
        return SafeStop(ERROR_TRANSPORT);
      }
      return SafeStop(ERROR_STOP_REJECTED);
    }

    /** One accepted goal, from its first cancel check to its result; the gate is reopened on every path. */
    method Execute(goal: Goal, s: Script) returns (result: GoalResult)
      requires Valid() && activeGoal && 1 <= goal.commandId <= 0xFFFF
      modifies this
      ensures Valid() && !activeGoal
      ensures TimeBudget.ToMilliseconds(goal.ackTimeout, maxAckTimeoutMs).None? ==>
                result == GoalResult(Aborted, DEVICE_FAULT, 100) && wire == old(wire)
                && nextStopId == old(nextStopId)
      ensures TimeBudget.ToMilliseconds(goal.ackTimeout, maxAckTimeoutMs).Some? ==>
                var command := Command(goal.commandId, goal.opcode, goal.argument);
                && result == GoalOutcome(command, old(nextStopId), s)
                && wire == old(wire) + GoalWire(command, old(nextStopId), s)
                && nextStopId == if NeedsStop(GoalEnding(command, s))
                                 then CommandIds.NextStopId(old(nextStopId)) else old(nextStopId)
    {
      if TimeBudget.ToMilliseconds(goal.ackTimeout, maxAckTimeoutMs) == None {
        activeGoal := false;
        return GoalResult(Aborted, DEVICE_FAULT, ERROR_INVALID_GOAL);
      }
      var command := Command(goal.commandId, goal.opcode, goal.argument);
      result := RunAttempts(command, s);
      activeGoal := false;
    }

    method RunAttempts(command: Command, s: Script) returns (result: GoalResult)
      requires Valid()
      modifies this`wire, this`nextStopId
      ensures Valid()
      ensures result == GoalOutcome(command, old(nextStopId), s)
      ensures wire == old(wire) + GoalWire(command, old(nextStopId), s)
      ensures nextStopId == if NeedsStop(GoalEnding(command, s))
                            then CommandIds.NextStopId(old(nextStopId)) else old(nextStopId)
    {
      hide StopOutcome, EncodeCommand, Receive;
      var commandSent, attempt := false, 0;
      while true
        invariant 0 <= attempt <= 1 && Valid() && nextStopId == old(nextStopId)
        invariant attempt == 0 ==> !commandSent && wire == old(wire)
        invariant attempt == 1 ==> commandSent
                                   && AttemptEnding(command, s.first, false).AckTimeout?
                                   && wire == old(wire) + AttemptWire(command, s.first)
        decreases 1 - attempt
      {
        var a := if attempt == 0 then s.first else s.second;
        if a.cancelingBefore {
          if !commandSent {
            return GoalResult(Canceled, CANCELED, 0);
          }
          result := StopAndFinish(command, s, true, 0);
          return;
        }
        Send(EncodeCommand(command), a.sendOk);
        if !a.sendOk {
          return SafeStop(ERROR_TRANSPORT);
        }
        commandSent := true;
        var wait := ReceiveResponse(a.window, command.commandId, true);
        match wait
        case GotResponse(response) =>
          if a.cancelingAfter {
            result := StopAndFinish(command, s, true, 0);
            return;
          }
          if response.resultCode == 0 {
            return GoalResult(Succeeded, COMPLETED, 0);
          }
          return GoalResult(Aborted, DEVICE_FAULT, ERROR_DEVICE_REJECTED_BASE + response.resultCode);
        case CancelSeen =>
          result := StopAndFinish(command, s, true, 0);
          return;
        case TransportError =>
          result := StopAndFinish(command, s, false, ERROR_TRANSPORT);
          return;
        case ShutdownSeen =>
          result := StopAndFinish(command, s, false, ERROR_SHUTDOWN);
          return;
        case TimedOut =>
          if attempt >= 1 {
            result := StopAndFinish(command, s, false, ERROR_ACK_TIMEOUT);
            return;
          }
          attempt := attempt + 1;
      }
    }
  }
}
