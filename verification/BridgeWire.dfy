/** What one bridge goal may put on the bus, and what its result proves about the bus. */
module BridgeWire {
  import opened Common
  import opened Outcomes
  import opened CanProtocol
  import opened DeviceBridge
  import VirtualDevice

  function Repeat<T>(x: T, n: nat): seq<T> {
    seq(n, _ => x)
  }

  /** The frames that reached the bus. */
  function Frames(wire: seq<WireEvent>): seq<RawFrame> {
    if wire == [] then []
    else (if wire[0].Sent? then [wire[0].frame] else []) + Frames(wire[1..])
  }

  /** The number of command frames sent before the command phase ended. */
  function CommandsSent(command: Command, s: Script): nat {
    if s.first.cancelingBefore || !s.first.sendOk then 0
    else if !AttemptEnding(command, s.first, false).AckTimeout? then 1
    else if s.second.cancelingBefore || !s.second.sendOk then 1
    else 2
  }

  function CommandSendFailed(command: Command, s: Script): seq<WireEvent> {
    if GoalEnding(command, s).SendFailure? then [SendFailed(EncodeCommand(command))] else []
  }

  lemma FramesConcat(a: seq<WireEvent>, b: seq<WireEvent>)
    ensures Frames(a + b) == Frames(a) + Frames(b)
  {
    if a == [] {
      assert a + b == b;
    } else {
      assert (a + b)[1..] == a[1..] + b;
    }
  }

  /** The grammar of every goal's send attempts: identical copies of the command (two at most), then either one
      failed command send, which ends the goal, or at most one STOP naming the original command. */
  lemma WireGrammar(command: Command, stopId: uint16, s: Script)
    ensures var n := CommandsSent(command, s);
            var failed := CommandSendFailed(command, s);
            var stop := StopWire(command, stopId, s);
            && n + |failed| <= 2
            && GoalWire(command, stopId, s) == Repeat(Sent(EncodeCommand(command)), n) + failed + stop
            && (failed == [] || stop == [])
            && |stop| <= 1
            && (stop != [] ==>
                  n >= 1 && stop[0].frame == EncodeCommand(Command(stopId, STOP_OPCODE, command.commandId)))
  {
    var n := CommandsSent(command, s);
    var failed := CommandSendFailed(command, s);
    assert CommandWire(command, s) == Repeat(Sent(EncodeCommand(command)), n) + failed;
  }

  lemma {:induction false} FramesOfCopies(frame: RawFrame, n: nat)
    ensures Frames(Repeat(Sent(frame), n)) == Repeat(frame, n)
  {
    if n > 0 {
      assert Repeat(Sent(frame), n)[1..] == Repeat(Sent(frame), n - 1);
      FramesOfCopies(frame, n - 1);
      assert Repeat(frame, n) == [frame] + Repeat(frame, n - 1);
    }
  }

  lemma FramesOnTheBus(command: Command, stopId: uint16, s: Script)
    ensures var stop := StopWire(command, stopId, s);
            Frames(GoalWire(command, stopId, s))
            == Repeat(EncodeCommand(command), CommandsSent(command, s))
               + if stop != [] && s.stopSendOk then [EncodeCommand(StopCommand(stopId, command))] else []
  {
    WireGrammar(command, stopId, s);
    var sent := Sent(EncodeCommand(command));
    var n := CommandsSent(command, s);
    var failed, stop := CommandSendFailed(command, s), StopWire(command, stopId, s);
    FramesConcat(Repeat(sent, n) + failed, stop);
    FramesConcat(Repeat(sent, n), failed);
    FramesOfCopies(EncodeCommand(command), n);
    assert Frames(failed) == [];
  }

  /** A STOP is attempted exactly when at least one copy of the command went out and the goal was then cancelled, or
      its last wait failed, was interrupted, or was the second to time out. A response that was not overtaken by a
      cancel and a failed command send never lead to a STOP. */
  lemma StopExactlyWhenUnsettled(command: Command, stopId: uint16, s: Script)
    ensures var firstTimedOut := !s.first.cancelingBefore && s.first.sendOk
              && Receive(s.first.window, command.commandId, true) == TimedOut;
            var a := if firstTimedOut then s.second else s.first;
            var wait := Receive(a.window, command.commandId, true);
            |StopWire(command, stopId, s)| == 1 <==>
              if a.cancelingBefore then firstTimedOut
              else a.sendOk && (wait.GotResponse? ==> a.cancelingAfter)
  {
  }

  /** One copy goes out, its acknowledgement does not come, and the retry cannot be sent. */
  const FAILED_RETRY: Script :=
    var quiet := Window([], true, false);
    Script(Attempt(false, true, quiet, false), Attempt(false, false, quiet, false), true, quiet)

  /** Such a goal ends without a STOP although a copy of its command is on the bus. */
  lemma FailedRetryEndsWithoutStop(command: Command, stopId: uint16)
    ensures GoalWire(command, stopId, FAILED_RETRY)
            == [Sent(EncodeCommand(command)), SendFailed(EncodeCommand(command))]
    ensures StopWire(command, stopId, FAILED_RETRY) == []
    ensures GoalOutcome(command, stopId, FAILED_RETRY) == SafeStop(ERROR_TRANSPORT)
  {
    assert Receive(FAILED_RETRY.first.window, command.commandId, true) == TimedOut;
  }

  /** The first answer to the STOP, carrying exactly the allocated STOP id, reported result 0 and mode STOPPED. */
  ghost predicate StopConfirmed(stopId: uint16, s: Script) {
    && s.stopSendOk
    && exists response: Response, k: nat ::
         && FirstMatch(s.stopWindow, stopId, false, response, k)
         && response.resultCode == 0
         && response.deviceMode == VirtualDevice.MODE_STOPPED
  }

  lemma StopConfirmedMeans(stopId: uint16, s: Script)
    ensures var wait := Receive(s.stopWindow, stopId, false);
            StopConfirmed(stopId, s) <==>
              && s.stopSendOk && wait.GotResponse?
              && wait.response.resultCode == 0 && wait.response.deviceMode == VirtualDevice.MODE_STOPPED
  {
    var wait := Receive(s.stopWindow, stopId, false);
    if wait.GotResponse? {
      ReceiveReturnsFirstMatch(s.stopWindow, stopId, false, wait.response);
    }
    if StopConfirmed(stopId, s) {
      var response: Response, k: nat :|
        && FirstMatch(s.stopWindow, stopId, false, response, k)
        && response.resultCode == 0
        && response.deviceMode == VirtualDevice.MODE_STOPPED;
      ReceiveReturnsFirstMatch(s.stopWindow, stopId, false, response);
    }
  }

  /** A `CANCELED` result is given exactly when the cancel was seen before anything was sent, or when it was seen after
      a send and the STOP, which then did go out, was confirmed. */
  lemma CanceledIsHonest(command: Command, stopId: uint16, s: Script)
    ensures var result := GoalOutcome(command, stopId, s);
            && (result.outcome == CANCELED <==> result.code == Canceled)
            && (result.outcome == CANCELED <==>
                  || s.first.cancelingBefore
                  || (GoalEnding(command, s) == CanceledAfterSend && StopConfirmed(stopId, s)))
            && (s.first.cancelingBefore ==> GoalWire(command, stopId, s) == [])
            && (GoalEnding(command, s) == CanceledAfterSend && StopConfirmed(stopId, s) ==>
                  EncodeCommand(StopCommand(stopId, command)) in Frames(GoalWire(command, stopId, s)))
  {
    var ending := GoalEnding(command, s);
    StopConfirmedMeans(stopId, s);
    FramesOnTheBus(command, stopId, s);
    if ending == CanceledAfterSend && s.stopSendOk {
      assert Frames(GoalWire(command, stopId, s))[CommandsSent(command, s)]
             == EncodeCommand(StopCommand(stopId, command));
    }
  }

  /** `COMPLETED` is given exactly when the first frame with the command's id after the last copy was an
      acknowledgement with result 0 and no cancel was seen; then no STOP was sent. */
  lemma CompletedIsHonest(command: Command, stopId: uint16, s: Script)
    ensures var result := GoalOutcome(command, stopId, s);
            var firstTimedOut := AttemptEnding(command, s.first, false).AckTimeout?;
            var a := if firstTimedOut then s.second else s.first;
            && (result.outcome == COMPLETED <==> result.code == Succeeded)
            && (result.outcome == COMPLETED <==>
                  && !a.cancelingBefore && a.sendOk && !a.cancelingAfter
                  && exists response: Response, k: nat ::
                       FirstMatch(a.window, command.commandId, true, response, k) && response.resultCode == 0)
            && (result.outcome == COMPLETED ==> StopWire(command, stopId, s) == [])
  {
    hide EncodeCommand, Matching;
    var firstTimedOut := AttemptEnding(command, s.first, false).AckTimeout?;
    var a := if firstTimedOut then s.second else s.first;
    var wait := Receive(a.window, command.commandId, true);
    if wait.GotResponse? {
      ReceiveReturnsFirstMatch(a.window, command.commandId, true, wait.response);
    }
    if response: Response, k: nat :|
         FirstMatch(a.window, command.commandId, true, response, k) && response.resultCode == 0
    {
      ReceiveReturnsFirstMatch(a.window, command.commandId, true, response);
    }
  }

  /** `response` is the first frame with the command's id after its last copy, and it reported a failure. */
  ghost predicate DeviceRefused(command: Command, s: Script, response: Response) {
    var a := if AttemptEnding(command, s.first, false).AckTimeout? then s.second else s.first;
    && !a.cancelingBefore && a.sendOk && !a.cancelingAfter
    && response.resultCode != 0
    && exists k: nat :: FirstMatch(a.window, command.commandId, true, response, k)
  }

  /** `DEVICE_FAULT` is given exactly when the device's own answer reported a failure, whose code it carries; then no
      STOP was sent. */
  lemma DeviceFaultIsHonest(command: Command, stopId: uint16, s: Script)
    ensures var result := GoalOutcome(command, stopId, s);
            && (result.outcome == DEVICE_FAULT <==>
                  exists response: Response :: DeviceRefused(command, s, response)
                    && result.errorCode == ERROR_DEVICE_REJECTED_BASE + response.resultCode)
            && (result.outcome == DEVICE_FAULT ==> StopWire(command, stopId, s) == [])
  {
    var a := if AttemptEnding(command, s.first, false).AckTimeout? then s.second else s.first;
    var wait := Receive(a.window, command.commandId, true);
    if wait.GotResponse? {
      ReceiveReturnsFirstMatch(a.window, command.commandId, true, wait.response);
      assert GoalOutcome(command, stopId, s).outcome == DEVICE_FAULT ==> DeviceRefused(command, s, wait.response);
    }
    if response: Response :| DeviceRefused(command, s, response) {
      ReceiveReturnsFirstMatch(a.window, command.commandId, true, response);
    }
  }

  /** A goal interrupted by shutdown reports the shutdown code exactly if its STOP is confirmed all the same. */
  lemma InterruptedExactlyWhen(command: Command, stopId: uint16, s: Script)
    requires GoalEnding(command, s) == Interrupted
    ensures GoalOutcome(command, stopId, s) == SafeStop(ERROR_SHUTDOWN) <==> StopConfirmed(stopId, s)
  {
    StopConfirmedMeans(stopId, s);
  }

  /** A node that stays stopped leaves the STOP wait at once, so it reports a transport error. */
  lemma InterruptedReportsTransportError(command: Command, stopId: uint16, s: Script)
    requires GoalEnding(command, s) == Interrupted
    requires (forall i :: 0 <= i < |s.stopWindow.polls| ==> !s.stopWindow.polls[i].running)
    requires !s.stopWindow.runningAtEnd
    ensures GoalOutcome(command, stopId, s) == SafeStop(ERROR_TRANSPORT)
  {
    assert Receive(s.stopWindow, stopId, false) == ShutdownSeen;
  }

  // The code of every ending

  /** The first copy went out and nothing came back: only then is there a second attempt. */
  ghost predicate FirstUnanswered(command: Command, s: Script) {
    !s.first.cancelingBefore && s.first.sendOk && Unanswered(s.first.window, command.commandId, true)
  }

  ghost function LastAttempt(command: Command, s: Script): Attempt {
    if FirstUnanswered(command, s) then s.second else s.first
  }

  lemma FirstUnansweredMeans(command: Command, s: Script)
    ensures AttemptEnding(command, s.first, false).AckTimeout? <==> FirstUnanswered(command, s)
  {
    ReceiveEndsExactly(s.first.window, command.commandId, true);
  }

  /** `response` is the first frame with the command's id after its last copy. */
  ghost predicate AnsweredWith(a: Attempt, command: Command, response: Response) {
    && !a.cancelingBefore && a.sendOk
    && exists k: nat :: FirstMatch(a.window, command.commandId, true, response, k)
  }

  /** How many copies go out: a second one exactly if the first was not answered in time and the goal still wanted. */
  lemma CopiesSent(command: Command, s: Script)
    ensures CommandsSent(command, s)
            == if s.first.cancelingBefore || !s.first.sendOk then 0
               else if FirstUnanswered(command, s) && !s.second.cancelingBefore && s.second.sendOk then 2 else 1
  {
    FirstUnansweredMeans(command, s);
  }

  /** The result of a goal that needs no STOP: cancelled before any copy went out, a failed send (200), a positive
      answer, or a failure answer (300 and the device's code). */
  lemma SettledGoalReports(command: Command, stopId: uint16, s: Script)
    ensures var a, r := LastAttempt(command, s), GoalOutcome(command, stopId, s);
            && (s.first.cancelingBefore ==> r == GoalResult(Canceled, CANCELED, 0))
            && (!a.cancelingBefore && !a.sendOk ==> r == GoalResult(Aborted, SAFE_STOP, 200))
            && (forall response: Response :: AnsweredWith(a, command, response) && !a.cancelingAfter ==>
                  r == if response.resultCode == 0 then GoalResult(Succeeded, COMPLETED, 0)
                       else GoalResult(Aborted, DEVICE_FAULT, 300 + response.resultCode))
  {
    hide Receive, Matching;
    FirstUnansweredMeans(command, s);
    var a := LastAttempt(command, s);
    forall response: Response | AnsweredWith(a, command, response) && !a.cancelingAfter
      ensures GoalOutcome(command, stopId, s)
              == if response.resultCode == 0 then GoalResult(Succeeded, COMPLETED, 0)
                 else GoalResult(Aborted, DEVICE_FAULT, 300 + response.resultCode)
    {
      ReceiveReturnsFirstMatch(a.window, command.commandId, true, response);
    }
  }

  /** A copy is out and the goal was cancelled since. */
  ghost predicate CanceledUnderway(command: Command, s: Script) {
    var a := LastAttempt(command, s);
    if a.cancelingBefore then FirstUnanswered(command, s)
    else
      && a.sendOk
      && (CanceledIn(a.window, command.commandId)
          || (a.cancelingAfter && exists response: Response :: AnsweredWith(a, command, response)))
  }

  /** The result of a goal whose STOP was confirmed: cancelled, or a safe stop that names what went wrong: both copies
      unanswered (201), a failed receive (200), or the node's shutdown (202). */
  lemma ConfirmedStopReports(command: Command, stopId: uint16, s: Script)
    requires StopConfirmed(stopId, s)
    ensures var a, r := LastAttempt(command, s), GoalOutcome(command, stopId, s);
            && (CanceledUnderway(command, s) ==> r == GoalResult(Canceled, CANCELED, 0))
            && (!a.cancelingBefore && a.sendOk ==>
                  && (Unanswered(a.window, command.commandId, true) ==> r == GoalResult(Aborted, SAFE_STOP, 201))
                  && (Broken(a.window, command.commandId, true) ==> r == GoalResult(Aborted, SAFE_STOP, 200))
                  && (CutShort(a.window, command.commandId, true) ==> r == GoalResult(Aborted, SAFE_STOP, 202)))
  {
    hide Receive, Matching;
    var a := LastAttempt(command, s);
    FirstUnansweredMeans(command, s);
    StopConfirmedMeans(stopId, s);
    ReceiveEndsExactly(a.window, command.commandId, true);
    if response: Response :| AnsweredWith(a, command, response) {
      ReceiveReturnsFirstMatch(a.window, command.commandId, true, response);
    }
  }

  /** The result of a goal whose STOP was attempted, but not confirmed: a STOP that could not be sent, or whose wait
      failed or was cut short by the node's shutdown, gives 200; one without an answer 204, one answered otherwise
      205. */
  lemma UnconfirmedStopReports(command: Command, stopId: uint16, s: Script)
    requires StopWire(command, stopId, s) != []
    ensures var r := GoalOutcome(command, stopId, s);
            && (!s.stopSendOk ==> r == GoalResult(Aborted, SAFE_STOP, 200))
            && (s.stopSendOk && (Broken(s.stopWindow, stopId, false) || CutShort(s.stopWindow, stopId, false)) ==>
                  r == GoalResult(Aborted, SAFE_STOP, 200))
            && (s.stopSendOk && Unanswered(s.stopWindow, stopId, false) ==> r == GoalResult(Aborted, SAFE_STOP, 204))
            && (s.stopSendOk
                && (exists response: Response, k: nat :: FirstMatch(s.stopWindow, stopId, false, response, k))
                && !StopConfirmed(stopId, s) ==>
                  r == GoalResult(Aborted, SAFE_STOP, 205))
  {
    hide Receive, Matching;
    StopConfirmedMeans(stopId, s);
    ReceiveEndsExactly(s.stopWindow, stopId, false);
    if response: Response, k: nat :| FirstMatch(s.stopWindow, stopId, false, response, k) {
      ReceiveReturnsFirstMatch(s.stopWindow, stopId, false, response);
    }
  }
}
