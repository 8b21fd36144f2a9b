/** The executor's worker: from a validated task to one device command, and from the child's end to the task's result.
    What the worker observes while it polls (flags, clock, hooks that throw, the child's messages) is a script. */
module ExecutorWorker {
  import opened Common
  import opened Outcomes
  import CommandIds
  import DeviceBridge
  import ET = ExecutorTerminal
  import TimeBudget

  const ERROR_BRIDGE_REJECTED: uint16 := 110
  const ERROR_BRIDGE_UNAVAILABLE: uint16 := 111
  const ERROR_TASK_DEADLINE: uint16 := 112
  const ERROR_CANCEL_UNCONFIRMED: uint16 := 113

  datatype StopCause = NoStop | UserCancel | Deadline | Shutdown

  /** The flags one look at the parent goal and the clock shows, and whether the hook or feedback beside it throws. */
  datatype Look = Look(running: bool, canceling: bool, expired: bool, throws: bool)

  /** A pass of the response wait that ended without a response, and one of the result wait without a result. */
  datatype ChildPass = ChildPass(look: Look, drainElapsed: bool)

  /** `responsePasses` and `childPasses` are the passes before the response, or the result, arrives. */
  datatype Script = Script(
    validation: seq<Look>, remainingMs: int64, throwsBeforeSend: bool, throwsAfterSend: bool,
    responsePasses: seq<Look>, runningAfterWait: bool, recoveringThrows: bool,
    answeredLate: bool, accepted: bool, acceptedThrows: bool,
    childPasses: seq<ChildPass>, cancelLate: bool, child: Option<Delivery>, beforeSuccess: Look)

  /** How the worker's body is left. */
  datatype Exit = Finished(result: GoalResult) | Thrown

  const CLEAN_CANCEL: GoalResult := GoalResult(Canceled, CANCELED, 0)

  function Validate(passes: seq<Look>): Option<Exit> {
    if passes == [] then None
    else if !passes[0].running then Some(Finished(SafeStop(ERROR_BRIDGE_UNAVAILABLE)))
    else if passes[0].canceling then Some(Finished(CLEAN_CANCEL))
    else if passes[0].expired then Some(Finished(SafeStop(ERROR_TASK_DEADLINE)))
    else if passes[0].throws then Some(Thrown)
    else Validate(passes[1..])
  }

  /** The first reason to stop that a look shows. */
  function Cause(look: Look): StopCause {
    if !look.running then Shutdown
    else if look.canceling then UserCancel
    else if look.expired then Deadline
    else NoStop
  }

  /** Why the wait for the goal response was left; `NoStop` means that the response arrived. */
  function AwaitResponse(passes: seq<Look>): StopCause {
    if passes == [] then NoStop
    else if Cause(passes[0]) != NoStop then Cause(passes[0])
    else AwaitResponse(passes[1..])
  }

  function WithoutHandle(stop: StopCause, answered: bool): GoalResult {
    match stop
    case Shutdown => SafeStop(ERROR_BRIDGE_UNAVAILABLE)
    case NoStop => GoalResult(Aborted, DEVICE_FAULT, ERROR_BRIDGE_REJECTED)
    case UserCancel => if answered then CLEAN_CANCEL else SafeStop(ERROR_CANCEL_UNCONFIRMED)
    case Deadline => SafeStop(if answered then ERROR_TASK_DEADLINE else ERROR_CANCEL_UNCONFIRMED)
  }

  /** Shutdown overrides an earlier cause; otherwise the first cause stays. */
  function NextCause(stop: StopCause, look: Look): StopCause {
    if !look.running then Shutdown else if stop.NoStop? then Cause(look) else stop
  }

  datatype ChildWait = ChildEnded(stop: StopCause) | Drained | HookThrew

  function AwaitChild(passes: seq<ChildPass>, stop: StopCause): ChildWait
    decreases |passes|
  {
    if passes == [] then ChildEnded(stop)
    else if !stop.NoStop? && passes[0].drainElapsed then Drained
    else
      var next := NextCause(stop, passes[0].look);
      if next != stop && passes[0].look.throws then HookThrew else AwaitChild(passes[1..], next)
  }

  predicate DeviceCompleted(end: Delivery) {
    end.code == Some(Succeeded) && end.payload.Some? && end.payload.value.outcome.COMPLETED?
  }

  predicate DeviceCanceled(end: Delivery) {
    end.code == Some(Canceled) && end.payload.Some? && end.payload.value.outcome.CANCELED?
  }

  function FinishFromChild(end: Delivery, stop: StopCause, cancelTimedOut: bool): GoalResult {
    if end.payload.None? then SafeStop(ET.ERROR_UNEXPECTED_CHILD_RESULT)
    else
      match stop
      case Shutdown => SafeStop(ERROR_BRIDGE_UNAVAILABLE)
      case UserCancel =>
        if cancelTimedOut then SafeStop(ERROR_CANCEL_UNCONFIRMED)
        else if DeviceCanceled(end) then CLEAN_CANCEL
        else if end.payload.value.outcome.SAFE_STOP? then SafeStop(end.payload.value.errorCode)
        else SafeStop(ERROR_CANCEL_UNCONFIRMED)
      case Deadline => SafeStop(ERROR_TASK_DEADLINE)
      case NoStop =>
        if DeviceCompleted(end) then GoalResult(Succeeded, COMPLETED, 0)
        else if end.payload.value.outcome.DEVICE_FAULT? then
          GoalResult(Aborted, DEVICE_FAULT, end.payload.value.errorCode)
        else if end.payload.value.outcome.SAFE_STOP? then SafeStop(end.payload.value.errorCode)
        else SafeStop(ET.ERROR_UNEXPECTED_CHILD_RESULT)
  }

  /** The device command was sent to the bridge. */
  predicate Dispatched(s: Script) {
    Validate(s.validation).None? && s.remainingMs >= 3 && !s.throwsBeforeSend
  }

  function StopAfterResponse(s: Script): StopCause {
    if !s.runningAfterWait then Shutdown else AwaitResponse(s.responsePasses)
  }

  /** A response is known by the time the worker looks at the handle. */
  predicate Answered(s: Script) {
    AwaitResponse(s.responsePasses).NoStop? || s.answeredLate
  }

  predicate HasHandle(s: Script) {
    Answered(s) && s.accepted
  }

  function AfterChild(s: Script, stop: StopCause): Exit {
    if s.child.None? then Thrown
    else
      var end := s.child.value;
      var recheck := stop.NoStop? && DeviceCompleted(end);
      if recheck && s.beforeSuccess.throws then Thrown
      else
        Finished(FinishFromChild(end, if recheck then Cause(s.beforeSuccess) else stop, !stop.NoStop? && s.cancelLate))
  }

  function AfterAcceptance(s: Script, stop: StopCause): Exit {
    if s.acceptedThrows then Thrown
    else match AwaitChild(s.childPasses, stop)
      case Drained => Finished(SafeStop(ERROR_CANCEL_UNCONFIRMED))
      case HookThrew => Thrown
      case ChildEnded(final) => AfterChild(s, final)
  }

  function Work(s: Script): Exit {
    var invalid := Validate(s.validation);
    if invalid.Some? then invalid.value
    else if s.remainingMs < 3 then Finished(SafeStop(ERROR_TASK_DEADLINE))
    else if s.throwsBeforeSend || s.throwsAfterSend then Thrown
    else
      var stop := StopAfterResponse(s);
      if !stop.NoStop? && s.recoveringThrows then Thrown
      else if !HasHandle(s) then Finished(WithoutHandle(stop, Answered(s)))
      else AfterAcceptance(s, stop)
  }

  /** An exception anywhere in the worker becomes an aborted task. */
  function Report(s: Script): GoalResult {
    match Work(s)
    case Finished(result) => result
    case Thrown => ET.ABORT
  }

  /** A look that shows no reason to stop. */
  predicate Clean(look: Look) {
    look.running && !look.canceling && !look.expired
  }

  /** Nothing stops the first `k` looks. */
  ghost predicate CleanFor(passes: seq<Look>, k: nat) {
    k <= |passes| && forall i :: 0 <= i < k ==> Clean(passes[i])
  }

  ghost predicate CancelSeenAt(passes: seq<Look>, k: nat) {
    && k < |passes| && CleanFor(passes, k) && passes[k].running && passes[k].canceling
    && forall i :: 0 <= i < k ==> !passes[i].throws
  }

  /** Shutdown before cancel before deadline. */
  lemma CauseExactly(look: Look)
    ensures Cause(look).Shutdown? <==> !look.running
    ensures Cause(look).UserCancel? <==> look.running && look.canceling
    ensures Cause(look).Deadline? <==> look.running && !look.canceling && look.expired
    ensures Cause(look).NoStop? <==> Clean(look)
  {
  }

  lemma {:induction false} ValidationCancels(passes: seq<Look>)
    ensures Validate(passes) == Some(Finished(CLEAN_CANCEL)) <==> exists k: nat :: CancelSeenAt(passes, k)
  {
    if passes != [] {
      var rest := passes[1..];
      ValidationCancels(rest);
      if passes[0].running && passes[0].canceling {
        assert CancelSeenAt(passes, 0);
      }
      if Clean(passes[0]) && !passes[0].throws {
        if k: nat :| CancelSeenAt(rest, k) {
          assert passes[k + 1] == rest[k] && CancelSeenAt(passes, k + 1);
        }
        if k: nat :| CancelSeenAt(passes, k) {
          assert k > 0 && rest[k - 1] == passes[k] && CancelSeenAt(rest, k - 1);
        }
      }
    }
  }

  lemma {:induction false} ValidationPasses(passes: seq<Look>)
    ensures Validate(passes).None? <==>
            CleanFor(passes, |passes|) && forall i :: 0 <= i < |passes| ==> !passes[i].throws
  {
    if passes != [] {
      ValidationPasses(passes[1..]);
      assert forall i :: 0 <= i < |passes[1..]| ==> passes[1..][i] == passes[i + 1];
    }
  }

  lemma {:induction false} ValidationOutcomes(passes: seq<Look>)
    ensures var exit := Validate(passes);
            exit.Some? && exit.value.Finished? ==>
              || exit.value.result == CLEAN_CANCEL
              || (exit.value.result.code.Aborted? && exit.value.result.outcome.SAFE_STOP?)
  {
    if passes != [] {
      ValidationOutcomes(passes[1..]);
    }
  }

  lemma {:induction false} ResponseWaitIsClean(passes: seq<Look>)
    ensures AwaitResponse(passes).NoStop? <==> CleanFor(passes, |passes|)
  {
    if passes != [] {
      ResponseWaitIsClean(passes[1..]);
      assert forall i :: 0 <= i < |passes[1..]| ==> passes[1..][i] == passes[i + 1];
    }
  }

  lemma {:induction false} ChildWaitIsClean(passes: seq<ChildPass>, stop: StopCause)
    ensures AwaitChild(passes, stop) == ChildEnded(NoStop) <==>
            stop.NoStop? && forall i :: 0 <= i < |passes| ==> Clean(passes[i].look)
    decreases |passes|
  {
    if passes != [] {
      ChildWaitIsClean(passes[1..], NextCause(stop, passes[0].look));
      assert forall i :: 0 <= i < |passes[1..]| ==> passes[1..][i] == passes[i + 1];
    }
  }

  /** The task never saw a reason to stop: not in any pass, and not in the last look before success. */
  ghost predicate NeverStopped(s: Script) {
    && CleanFor(s.validation, |s.validation|)
    && CleanFor(s.responsePasses, |s.responsePasses|)
    && s.runningAfterWait
    && (forall i :: 0 <= i < |s.childPasses| ==> Clean(s.childPasses[i].look))
    && Clean(s.beforeSuccess)
  }

  ghost predicate NothingThrew(s: Script) {
    && (forall i :: 0 <= i < |s.validation| ==> !s.validation[i].throws)
    && !s.throwsBeforeSend && !s.throwsAfterSend && !s.acceptedThrows && !s.beforeSuccess.throws
  }

  /** A task completes exactly when it had the budget, the bridge accepted and completed its command, and nothing ever
      asked it to stop or threw. */
  lemma CompletedExactlyWhen(s: Script)
    ensures Report(s).outcome.COMPLETED? <==> Report(s).code.Succeeded?
    ensures Report(s).outcome.COMPLETED? <==>
            && NeverStopped(s) && NothingThrew(s) && s.remainingMs >= 3
            && s.accepted && s.child.Some? && s.child.value.code == Some(Succeeded)
            && s.child.value.payload.Some? && s.child.value.payload.value.outcome.COMPLETED?
    ensures Report(s).outcome.COMPLETED? ==> Report(s) == GoalResult(Succeeded, COMPLETED, 0)
  {
    ValidationPasses(s.validation);
    ValidationOutcomes(s.validation);
    ResponseWaitIsClean(s.responsePasses);
    ChildWaitIsClean(s.childPasses, StopAfterResponse(s));
  }

  /** A task is cancelled exactly when the cancel was seen during validation, or it stopped for a cancel and the bridge
      had refused the command, or it stopped for a cancel and the bridge's own result was a confirmed cancel in time. */
  lemma CanceledExactlyWhen(s: Script)
    ensures Report(s).outcome.CANCELED? <==> Report(s).code.Canceled?
    ensures var stop := StopAfterResponse(s);
            var underway := Dispatched(s) && !s.throwsAfterSend && (stop.NoStop? || !s.recoveringThrows);
            Report(s).outcome.CANCELED? <==>
              || (exists k: nat :: CancelSeenAt(s.validation, k))
              || (underway && stop.UserCancel? && s.answeredLate && !s.accepted)
              || (underway && HasHandle(s) && !s.acceptedThrows
                  && AwaitChild(s.childPasses, stop) == ChildEnded(UserCancel) && !s.cancelLate
                  && s.child.Some? && s.child.value.code == Some(Canceled)
                  && s.child.value.payload.Some? && s.child.value.payload.value.outcome.CANCELED?)
    ensures Report(s).outcome.CANCELED? ==> Report(s) == GoalResult(Canceled, CANCELED, 0)
  {
    ValidationCancels(s.validation);
    ValidationOutcomes(s.validation);
  }

  /** A task blames the device exactly when nothing stopped it or threw before, and the bridge refused the command or
      reported a device fault, whose code it passes on. */
  lemma DeviceFaultExactlyWhen(s: Script)
    ensures var undisturbed :=
              && CleanFor(s.validation, |s.validation|)
              && (forall i :: 0 <= i < |s.validation| ==> !s.validation[i].throws)
              && s.remainingMs >= 3 && !s.throwsBeforeSend && !s.throwsAfterSend
              && CleanFor(s.responsePasses, |s.responsePasses|) && s.runningAfterWait;
            Report(s).outcome.DEVICE_FAULT? <==>
              && undisturbed
              && if !s.accepted then Report(s).errorCode == 110
                 else
                   && !s.acceptedThrows
                   && (forall i :: 0 <= i < |s.childPasses| ==> Clean(s.childPasses[i].look))
                   && s.child.Some? && s.child.value.payload == Some(Payload(DEVICE_FAULT, Report(s).errorCode))
  {
    ValidationPasses(s.validation);
    ValidationOutcomes(s.validation);
    ResponseWaitIsClean(s.responsePasses);
    ChildWaitIsClean(s.childPasses, StopAfterResponse(s));
  }

  // Why a task stops, and with which code

  /** Validation is left at the first look that shows a stop or throws. */
  lemma {:induction false} ValidationStopsAt(passes: seq<Look>, k: nat)
    requires k < |passes| && CleanFor(passes, k) && forall i :: 0 <= i < k ==> !passes[i].throws
    ensures !passes[k].running ==> Validate(passes) == Some(Finished(GoalResult(Aborted, SAFE_STOP, 111)))
    ensures passes[k].running && passes[k].canceling ==>
              Validate(passes) == Some(Finished(GoalResult(Canceled, CANCELED, 0)))
    ensures passes[k].running && !passes[k].canceling && passes[k].expired ==>
              Validate(passes) == Some(Finished(GoalResult(Aborted, SAFE_STOP, 112)))
    ensures Clean(passes[k]) && passes[k].throws ==> Validate(passes) == Some(Thrown)
    decreases k
  {
    if k > 0 {
      assert forall i :: 0 <= i < |passes[1..]| ==> passes[1..][i] == passes[i + 1];
      ValidationStopsAt(passes[1..], k - 1);
    }
  }

  /** The response wait stops for the first reason that shows. */
  lemma {:induction false} ResponseWaitStopsAt(passes: seq<Look>, k: nat)
    requires k < |passes| && CleanFor(passes, k) && !Clean(passes[k])
    ensures AwaitResponse(passes) == if !passes[k].running then Shutdown
                                     else if passes[k].canceling then UserCancel else Deadline
    decreases k
  {
    if k > 0 {
      assert forall i :: 0 <= i < |passes[1..]| ==> passes[1..][i] == passes[i + 1];
      ResponseWaitStopsAt(passes[1..], k - 1);
    }
  }

  /** The result wait stops for the first reason that shows, unless the hook for it throws. */
  lemma {:induction false} ResultWaitStopsAt(passes: seq<ChildPass>, k: nat)
    requires k < |passes| && (forall i :: 0 <= i < k ==> Clean(passes[i].look)) && !Clean(passes[k].look)
    ensures AwaitChild(passes, NoStop)
            == if passes[k].look.throws then HookThrew
               else AwaitChild(passes[k + 1..], if !passes[k].look.running then Shutdown
                                                else if passes[k].look.canceling then UserCancel else Deadline)
    decreases k
  {
    if k > 0 {
      assert forall i :: 0 <= i < |passes[1..]| ==> passes[1..][i] == passes[i + 1];
      ResultWaitStopsAt(passes[1..], k - 1);
      assert passes[1..][k..] == passes[k + 1..];
    }
  }

  /** Once stopped, it goes on until the child ends or the drain time is over; only a shutdown changes the reason. */
  lemma {:induction false} StoppedWaitGoesOn(passes: seq<ChildPass>, stop: StopCause, k: nat)
    requires !stop.NoStop? && k <= |passes|
    requires forall i :: 0 <= i < k ==> !passes[i].drainElapsed && (stop.Shutdown? || passes[i].look.running)
    ensures k == |passes| ==> AwaitChild(passes, stop) == ChildEnded(stop)
    ensures k < |passes| && passes[k].drainElapsed ==> AwaitChild(passes, stop) == Drained
    ensures k < |passes| && !passes[k].drainElapsed && !stop.Shutdown? && !passes[k].look.running ==>
              AwaitChild(passes, stop)
              == if passes[k].look.throws then HookThrew else AwaitChild(passes[k + 1..], Shutdown)
    decreases k
  {
    if k > 0 {
      assert forall i :: 0 <= i < |passes[1..]| ==> passes[1..][i] == passes[i + 1];
      StoppedWaitGoesOn(passes[1..], stop, k - 1);
      assert k < |passes| ==> passes[1..][k..] == passes[k + 1..];
    }
  }

  /** A task without a handle: refused by the bridge (110), or stopped before it was accepted. */
  lemma UnacceptedTaskReports(stop: StopCause, answered: bool)
    ensures WithoutHandle(NoStop, answered) == GoalResult(Aborted, DEVICE_FAULT, 110)
    ensures WithoutHandle(Shutdown, answered) == GoalResult(Aborted, SAFE_STOP, 111)
    ensures WithoutHandle(Deadline, true) == GoalResult(Aborted, SAFE_STOP, 112)
    ensures WithoutHandle(UserCancel, true) == GoalResult(Canceled, CANCELED, 0)
    ensures stop.Deadline? || stop.UserCancel? ==> WithoutHandle(stop, false) == GoalResult(Aborted, SAFE_STOP, 113)
  {
  }

  /** What the child's result makes of a task, for every reason to stop. The child's own safe stop code is passed on; a
      result without a message, or one that does not fit, gives 114, and an unconfirmed cancel 113. */
  lemma ChildResultReports(end: Delivery, stop: StopCause, cancelTimedOut: bool)
    ensures var r := FinishFromChild(end, stop, cancelTimedOut);
            if end.payload.None? then r == GoalResult(Aborted, SAFE_STOP, 114)
            else
              var outcome, code := end.payload.value.outcome, end.payload.value.errorCode;
              && (stop.Shutdown? ==> r == GoalResult(Aborted, SAFE_STOP, 111))
              && (stop.Deadline? ==> r == GoalResult(Aborted, SAFE_STOP, 112))
              && (stop.UserCancel? && !cancelTimedOut && end.code == Some(Canceled) && outcome.CANCELED? ==>
                    r == GoalResult(Canceled, CANCELED, 0))
              && (stop.UserCancel? && !cancelTimedOut && outcome.SAFE_STOP? ==>
                    r == GoalResult(Aborted, SAFE_STOP, code))
              && (stop.UserCancel?
                  && (cancelTimedOut || outcome.COMPLETED? || outcome.DEVICE_FAULT?
                      || (outcome.CANCELED? && end.code != Some(Canceled))) ==>
                    r == GoalResult(Aborted, SAFE_STOP, 113))
              && (stop.NoStop? && outcome.COMPLETED? && end.code == Some(Succeeded) ==>
                    r == GoalResult(Succeeded, COMPLETED, 0))
              && (stop.NoStop? && outcome.DEVICE_FAULT? ==> r == GoalResult(Aborted, DEVICE_FAULT, code))
              && (stop.NoStop? && outcome.SAFE_STOP? ==> r == GoalResult(Aborted, SAFE_STOP, code))
              && (stop.NoStop? && (outcome.CANCELED? || (outcome.COMPLETED? && end.code != Some(Succeeded))) ==>
                    r == GoalResult(Aborted, SAFE_STOP, 114))
  {
  }

  /** The task passed its validation, had a budget, and nothing threw up to the bridge's response. */
  ghost predicate Underway(s: Script) {
    && CleanFor(s.validation, |s.validation|)
    && (forall i :: 0 <= i < |s.validation| ==> !s.validation[i].throws)
    && s.remainingMs >= 3 && !s.throwsBeforeSend && !s.throwsAfterSend
  }

  /** The reason why the response wait was left: the node's shutdown, or what the wait saw first. */
  ghost predicate LeftFor(s: Script, stop: StopCause) {
    if !s.runningAfterWait then stop.Shutdown?
    else if stop.NoStop? then CleanFor(s.responsePasses, |s.responsePasses|)
    else exists k: nat ::
           && k < |s.responsePasses| && CleanFor(s.responsePasses, k) && !Clean(s.responsePasses[k])
           && stop == if !s.responsePasses[k].running then Shutdown
                      else if s.responsePasses[k].canceling then UserCancel else Deadline
  }

  lemma LeftForIsCause(s: Script, stop: StopCause)
    requires LeftFor(s, stop)
    ensures stop == StopAfterResponse(s)
  {
    if s.runningAfterWait {
      if stop.NoStop? {
        ResponseWaitIsClean(s.responsePasses);
      } else {
        var k: nat :|
          && k < |s.responsePasses| && CleanFor(s.responsePasses, k) && !Clean(s.responsePasses[k])
          && stop == if !s.responsePasses[k].running then Shutdown
                     else if s.responsePasses[k].canceling then UserCancel else Deadline;
        ResponseWaitStopsAt(s.responsePasses, k);
      }
    }
  }

  /** Before the command is sent: a stop or an exception in validation, a budget too small for two answers (112), or an
      exception around the send (114). */
  lemma UnsentTaskReports(s: Script)
    ensures forall k: nat ::
              k < |s.validation| && CleanFor(s.validation, k)
              && (forall i :: 0 <= i < k ==> !s.validation[i].throws) ==>
                var look := s.validation[k];
                && (!look.running ==> Report(s) == GoalResult(Aborted, SAFE_STOP, 111))
                && (look.running && look.canceling ==> Report(s) == GoalResult(Canceled, CANCELED, 0))
                && (look.running && !look.canceling && look.expired ==>
                      Report(s) == GoalResult(Aborted, SAFE_STOP, 112))
                && (Clean(look) && look.throws ==> Report(s) == GoalResult(Aborted, SAFE_STOP, 114))
    ensures CleanFor(s.validation, |s.validation|)
            && (forall i :: 0 <= i < |s.validation| ==> !s.validation[i].throws) ==>
              && (s.remainingMs < 3 ==> Report(s) == GoalResult(Aborted, SAFE_STOP, 112))
              && (s.remainingMs >= 3 && (s.throwsBeforeSend || s.throwsAfterSend) ==>
                    Report(s) == GoalResult(Aborted, SAFE_STOP, 114))
  {
    ValidationPasses(s.validation);
    forall k: nat |
      k < |s.validation| && CleanFor(s.validation, k) && forall i :: 0 <= i < k ==> !s.validation[i].throws
      ensures var look := s.validation[k];
              && (!look.running ==> Report(s) == GoalResult(Aborted, SAFE_STOP, 111))
              && (look.running && look.canceling ==> Report(s) == GoalResult(Canceled, CANCELED, 0))
              && (look.running && !look.canceling && look.expired ==>
                    Report(s) == GoalResult(Aborted, SAFE_STOP, 112))
              && (Clean(look) && look.throws ==> Report(s) == GoalResult(Aborted, SAFE_STOP, 114))
    {
      ValidationStopsAt(s.validation, k);
    }
  }

  /** After the command was sent, for whatever reason the response wait was left: without a handle, by an exception
      (114), by the end of the drain time (113), or with the child's result, or its absence (114). */
  lemma SentTaskReports(s: Script, stop: StopCause)
    requires Underway(s) && LeftFor(s, stop)
    ensures var answered := CleanFor(s.responsePasses, |s.responsePasses|) || s.answeredLate;
            var wait := AwaitChild(s.childPasses, stop);
            if !stop.NoStop? && s.recoveringThrows then Report(s) == GoalResult(Aborted, SAFE_STOP, 114)
            else if !(answered && s.accepted) then Report(s) == WithoutHandle(stop, answered)
            else if s.acceptedThrows || wait.HookThrew? then Report(s) == GoalResult(Aborted, SAFE_STOP, 114)
            else if wait.Drained? then Report(s) == GoalResult(Aborted, SAFE_STOP, 113)
            else if s.child.None? then Report(s) == GoalResult(Aborted, SAFE_STOP, 114)
            else
              var end := s.child.value;
              var succeeded := end.code == Some(Succeeded) && end.payload.Some?
                && end.payload.value.outcome.COMPLETED?;
              if wait.stop.NoStop? && succeeded then
                var last := s.beforeSuccess;
                && (last.throws ==> Report(s) == GoalResult(Aborted, SAFE_STOP, 114))
                && (!last.throws && !last.running ==> Report(s) == GoalResult(Aborted, SAFE_STOP, 111))
                && (!last.throws && last.running && last.canceling ==>
                      Report(s) == GoalResult(Aborted, SAFE_STOP, 113))
                && (!last.throws && last.running && !last.canceling && last.expired ==>
                      Report(s) == GoalResult(Aborted, SAFE_STOP, 112))
                && (!last.throws && Clean(last) ==> Report(s) == GoalResult(Succeeded, COMPLETED, 0))
              else
                Report(s) == FinishFromChild(end, wait.stop, !wait.stop.NoStop? && s.cancelLate)
  {
    ValidationPasses(s.validation);
    ResponseWaitIsClean(s.responsePasses);
    LeftForIsCause(s, stop);
  }

  /** The worker thread's node: its command-id counter and the parameters of every device command. */
  class Worker {
    const allocator: CommandIds.CommandIdAllocator
    const opcode: uint8
    const ackTimeoutMs: int64

    /** The ACK timeout's range is checked when the node starts. */
    constructor (allocator: CommandIds.CommandIdAllocator, opcode: uint8, ackTimeoutMs: int64)
      requires 1 <= ackTimeoutMs <= 60000
      ensures this.allocator == allocator && this.opcode == opcode && this.ackTimeoutMs == ackTimeoutMs
    {
      this.allocator, this.opcode, this.ackTimeoutMs := allocator, opcode, ackTimeoutMs;
    }

    method RunValidation(passes: seq<Look>) returns (exit: Option<Exit>)
      ensures exit == Validate(passes)
    {
      var i := 0;
      while i < |passes|
        invariant 0 <= i <= |passes|
        invariant Validate(passes) == Validate(passes[i..])
      {
        assert passes[i..][1..] == passes[i + 1..];
        var look := passes[i];
        if !look.running {
          return Some(Finished(SafeStop(ERROR_BRIDGE_UNAVAILABLE)));
        }
        if look.canceling {
          return Some(Finished(CLEAN_CANCEL));
        }
        if look.expired {
          return Some(Finished(SafeStop(ERROR_TASK_DEADLINE)));
        }
        if look.throws {
          return Some(Thrown);
        }
        i := i + 1;
      }
      return None;
    }

    method WaitForResponse(s: Script) returns (stop: StopCause)
      ensures stop == StopAfterResponse(s)
    {
      stop := NoStop;
      var i := 0;
      while i < |s.responsePasses| && stop == NoStop
        invariant 0 <= i <= |s.responsePasses|
        invariant AwaitResponse(s.responsePasses)
                  == if stop == NoStop then AwaitResponse(s.responsePasses[i..]) else stop
      {
        assert s.responsePasses[i..][1..] == s.responsePasses[i + 1..];
        var look := s.responsePasses[i];
        if !look.running {
          stop := Shutdown;
        } else if look.canceling {
          stop := UserCancel;
        } else if look.expired {
          stop := Deadline;
        }
        i := i + 1;
      }
      if !s.runningAfterWait {
        stop := Shutdown;
      }
    }

    method WaitForChild(passes: seq<ChildPass>, initial: StopCause) returns (wait: ChildWait)
      ensures wait == AwaitChild(passes, initial)
    {
      var stop, i := initial, 0;
      while i < |passes|
        invariant 0 <= i <= |passes|
        invariant AwaitChild(passes, initial) == AwaitChild(passes[i..], stop)
      {
        assert passes[i..][1..] == passes[i + 1..];
        var look, before := passes[i].look, stop;
        if stop != NoStop && passes[i].drainElapsed {
          return Drained;
        }
        if !look.running && stop != Shutdown {
          stop := Shutdown;
        } else if stop == NoStop && look.canceling {
          stop := UserCancel;
        } else if stop == NoStop && look.expired {
          stop := Deadline;
        }
        if stop != before && look.throws {
          return HookThrew;
        }
        i := i + 1;
      }
      return ChildEnded(stop);
    }

    /** The whole worker; `sent` is the goal given to the bridge. Its id is fresh, and two of its ACK windows leave a
        third of the remaining time. */
    method ExecuteWorker(s: Script, argument: int32) returns (exit: Exit, sent: Option<DeviceBridge.Goal>)
      requires 1 <= ackTimeoutMs <= 60000
      modifies allocator
      ensures exit == Work(s)
      ensures sent.Some? <==> Dispatched(s)
      ensures sent.Some? ==>
                && sent.value.commandId == CommandIds.IssuedId(CommandIds.APPLICATION, old(allocator.next), 0)
                && sent.value.opcode == opcode && sent.value.argument == argument
                && exists t: int64 ::
                     && 1 <= t <= ackTimeoutMs && 3 * t <= s.remainingMs
                     && TimeBudget.ToMilliseconds(sent.value.ackTimeout, INT64_MAX) == Some(t)
    {
      sent := None;
      var invalid := RunValidation(s.validation);
      if invalid.Some? {
        return invalid.value, None;
      }
      if s.remainingMs < 3 {
        return Finished(SafeStop(ERROR_TASK_DEADLINE)), None;
      }
      var t := TimeBudget.ChildAckTimeout(s.remainingMs, ackTimeoutMs);
      TimeBudget.AckWindowsLeaveAThird(s.remainingMs, ackTimeoutMs, INT64_MAX);
      var (sec, nanosec) := TimeBudget.SplitMilliseconds(t);
      var id := allocator.Allocate();
      if s.throwsBeforeSend {
        return Thrown, None;
      }
      sent := Some(DeviceBridge.Goal(id, opcode, argument, TimeBudget.Duration(sec, nanosec)));
      if s.throwsAfterSend {
        return Thrown, sent;
      }
      var stop := WaitForResponse(s);
      if stop != NoStop && s.recoveringThrows {
        return Thrown, sent;
      }
      if !HasHandle(s) {
        return Finished(WithoutHandle(stop, Answered(s))), sent;
      }
      if s.acceptedThrows {
        return Thrown, sent;
      }
      var wait := WaitForChild(s.childPasses, stop);
      exit := match wait
        case Drained => Finished(SafeStop(ERROR_CANCEL_UNCONFIRMED))
        case HookThrew => Thrown
        case ChildEnded(final) => AfterChild(s, final);
    }
  }
}
