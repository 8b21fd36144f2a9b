/** The orchestrator's worker: tick the tree until it ends, is cancelled, misses the deadline or the node stops, then
    turn the child task's result into the workflow's terminal request. */
module OrchestratorWorkflow {
  import opened Common
  import opened Outcomes
  import opened OrchestratorTerminal
  import TimeBudget

  datatype Status = Running | Success | Failure | Throws

  /** One pass of the execute loop; the clock is looked at before and after the tick. */
  datatype Pass = Pass(running: bool, canceling: bool, expiredBefore: bool, status: Status, expiredAfter: bool)

  /** `passes` end when the node stops. The rest is what finish() reads once the loop is over. */
  datatype Script = Script(
    passes: seq<Pass>, cancelingAtFinish: bool, dispatched: bool, cancelTimedOut: bool, child: Option<Delivery>)

  /** The child task's budget: what is left of the workflow's, as the action's duration message. */
  function ChildBudget(remainingNs: int64): (d: Option<TimeBudget.Duration>)
    ensures d.Some? <==> 0 < remainingNs < (INT32_MAX + 1) * TimeBudget.NS_PER_SECOND
    ensures d.Some? ==>
              TimeBudget.TotalNanoseconds(d.value) == remainingNs && d.value.nanosec < TimeBudget.NS_PER_SECOND
  {
    var seconds := remainingNs / TimeBudget.NS_PER_SECOND;
    if remainingNs <= 0 || seconds > INT32_MAX then None
    else Some(TimeBudget.Duration(seconds, remainingNs - seconds * TimeBudget.NS_PER_SECOND))
  }

  function Finish(
    parentCanceling: bool, child: Option<Delivery>, dispatched: bool, cancelTimedOut: bool): GoalResult
  {
    if parentCanceling && cancelTimedOut then SafeStop(ERROR_CANCEL_UNCONFIRMED)
    else if child.None? || child.value.payload.None? then
      if parentCanceling && dispatched then SafeStop(ERROR_CANCEL_UNCONFIRMED)
      else if parentCanceling then GoalResult(Canceled, CANCELED, 0)
      else SafeStop(ERROR_PRECONDITION)
    else
      var payload := child.value.payload.value;
      if parentCanceling then
        match payload.outcome
        case CANCELED => GoalResult(Canceled, CANCELED, payload.errorCode)
        case SAFE_STOP | DEVICE_FAULT => GoalResult(Aborted, payload.outcome, payload.errorCode)
        case COMPLETED => SafeStop(ERROR_INTERNAL)
      else if payload.outcome.COMPLETED? && child.value.code == Some(Succeeded) then
        GoalResult(Succeeded, COMPLETED, payload.errorCode)
      else if payload.outcome.CANCELED? then SafeStop(ERROR_INTERNAL)
      else GoalResult(Aborted, payload.outcome, payload.errorCode)
  }

  /** The terminal request the worker makes, whichever way its loop ends. */
  function Request(s: Script): GoalResult
    decreases |s.passes|
  {
    if s.passes == [] || !s.passes[0].running then SafeStop(ERROR_SHUTDOWN)
    else
      var p := s.passes[0];
      if p.canceling then Finish(true, s.child, s.dispatched, s.cancelTimedOut)
      else if p.expiredBefore then SafeStop(ERROR_DEADLINE)
      else if p.status.Throws? then SafeStop(ERROR_INTERNAL)
      else if p.expiredAfter then SafeStop(ERROR_DEADLINE)
      else if !p.status.Running? then Finish(s.cancelingAtFinish, s.child, s.dispatched, s.cancelTimedOut)
      else Request(s.(passes := s.passes[1..]))
  }

  /** The worker asks for a cancelled end only if no child was dispatched, or the child's own result says cancelled and
      its cancel was confirmed in time; it asks for success only on a child that succeeded and completed. */
  lemma {:induction false} RequestIsHonest(s: Script)
    ensures Request(s).outcome.CANCELED? <==> Request(s).code.Canceled?
    ensures Request(s).outcome.CANCELED? ==>
              && !s.cancelTimedOut
              && (if s.child.Some? && s.child.value.payload.Some?
                  then s.child.value.payload.value.outcome.CANCELED? else !s.dispatched)
    ensures Request(s).code.Succeeded? ==>
              && !s.cancelingAtFinish && s.child.Some? && s.child.value.code == Some(Succeeded)
              && s.child.value.payload.Some? && s.child.value.payload.value.outcome.COMPLETED?
    ensures Request(s).code.Succeeded? ==> Request(s).outcome.COMPLETED?
    ensures Request(s).outcome.COMPLETED? ==>
              && s.child.Some? && s.child.value.payload.Some? && s.child.value.payload.value.outcome.COMPLETED?
              && (Request(s).code.Succeeded? <==> s.child.value.code == Some(Succeeded))
    ensures Request(s).outcome.DEVICE_FAULT? ==>
              s.child.Some? && s.child.value.payload == Some(Payload(DEVICE_FAULT, Request(s).errorCode))
    decreases |s.passes|
  {
    if s.passes != [] {
      RequestIsHonest(s.(passes := s.passes[1..]));
    }
  }

  /** finish(), for every combination of what it reads. */
  lemma FinishExactly(parentCanceling: bool, child: Option<Delivery>, dispatched: bool, cancelTimedOut: bool)
    ensures var r := Finish(parentCanceling, child, dispatched, cancelTimedOut);
            var known := child.Some? && child.value.payload.Some?;
            && (r.code.Canceled? <==>
                  && parentCanceling && !cancelTimedOut
                  && if known then child.value.payload.value.outcome.CANCELED? else !dispatched)
            && (r.code.Succeeded? <==>
                  && !parentCanceling && known && child.value.code == Some(Succeeded)
                  && child.value.payload.value.outcome.COMPLETED?)
            && (r.code.Canceled? ==>
                  r == GoalResult(Canceled, CANCELED, if known then child.value.payload.value.errorCode else 0))
            && (r.code.Succeeded? ==> r == GoalResult(Succeeded, COMPLETED, child.value.payload.value.errorCode))
            && (parentCanceling && cancelTimedOut ==> r == GoalResult(Aborted, SAFE_STOP, 207))
            && (parentCanceling && !known && dispatched ==> r == GoalResult(Aborted, SAFE_STOP, 207))
            && (!parentCanceling && !known ==> r == GoalResult(Aborted, SAFE_STOP, 206))
            && (parentCanceling && !cancelTimedOut && known && child.value.payload.value.outcome.COMPLETED? ==>
                  r == GoalResult(Aborted, SAFE_STOP, 208))
            && (!parentCanceling && known && child.value.payload.value.outcome.CANCELED? ==>
                  r == GoalResult(Aborted, SAFE_STOP, 208))
            && (!parentCanceling && known && child.value.payload.value.outcome.COMPLETED?
                && child.value.code != Some(Succeeded) ==>
                  r == GoalResult(Aborted, COMPLETED, child.value.payload.value.errorCode))
            && (known && !(parentCanceling && cancelTimedOut)
                && (child.value.payload.value.outcome.SAFE_STOP? || child.value.payload.value.outcome.DEVICE_FAULT?) ==>
                  r == GoalResult(Aborted, child.value.payload.value.outcome, child.value.payload.value.errorCode))
            && (r.outcome.COMPLETED? <==> !parentCanceling && known && child.value.payload.value.outcome.COMPLETED?)
            && (r.outcome.COMPLETED? ==> (r.code.Succeeded? <==> child.value.code == Some(Succeeded)))
  {
  }

  /** A pass after which the loop goes on. */
  predicate Quiet(p: Pass) {
    p.running && !p.canceling && !p.expiredBefore && p.status.Running? && !p.expiredAfter
  }

  ghost predicate QuietUpTo(s: Script, k: nat) {
    k <= |s.passes| && forall i :: 0 <= i < k ==> Quiet(s.passes[i])
  }

  /** The tree ends in pass `k`, in time, uncancelled and with the node running. */
  ghost predicate TreeEndsAt(s: Script, k: nat) {
    && QuietUpTo(s, k) && k < |s.passes|
    && var p := s.passes[k];
       && p.running && !p.canceling && !p.expiredBefore && !p.expiredAfter
       && (p.status.Success? || p.status.Failure?)
  }

  /** Pass `k` is the first to see the cancel. */
  ghost predicate CancelSeenAt(s: Script, k: nat) {
    QuietUpTo(s, k) && k < |s.passes| && s.passes[k].running && s.passes[k].canceling
  }

  /** The child's own result: it succeeded and completed. */
  predicate ChildSucceeded(s: Script) {
    && s.child.Some? && s.child.value.code == Some(Succeeded)
    && s.child.value.payload.Some? && s.child.value.payload.value.outcome.COMPLETED?
  }

  lemma {:induction false} RequestSkipsQuiet(s: Script, k: nat)
    requires QuietUpTo(s, k)
    ensures Request(s) == Request(s.(passes := s.passes[k..]))
    decreases k
  {
    if k == 0 {
      assert s.passes[0..] == s.passes;
    } else {
      var rest := s.(passes := s.passes[1..]);
      assert forall i :: 0 <= i < k - 1 ==> rest.passes[i] == s.passes[i + 1];
      RequestSkipsQuiet(rest, k - 1);
      assert rest.passes[k - 1..] == s.passes[k..];
    }
  }

  lemma {:induction false} LoopEndsSomewhere(s: Script) returns (k: nat)
    ensures QuietUpTo(s, k) && (k < |s.passes| ==> !Quiet(s.passes[k]))
    decreases |s.passes|
  {
    k := 0;
    if s.passes != [] && Quiet(s.passes[0]) {
      var rest := s.(passes := s.passes[1..]);
      var n := LoopEndsSomewhere(rest);
      k := n + 1;
      forall i | 0 <= i < k ensures Quiet(s.passes[i]) {
        assert i > 0 ==> Quiet(rest.passes[i - 1]);
      }
    }
  }

  lemma LoopEndsOnce(s: Script, k: nat, j: nat)
    requires QuietUpTo(s, k) && QuietUpTo(s, j) && j < |s.passes| && !Quiet(s.passes[j])
    requires k < |s.passes| ==> !Quiet(s.passes[k])
    ensures k == j
  {
  }

  /** The worker asks for success exactly if the tree ended in time, nobody asked for a cancel, and the child's own
      result was delivered and is a success. */
  lemma RequestSucceedsExactlyWhen(s: Script)
    ensures Request(s).code.Succeeded? <==>
              (exists k: nat :: TreeEndsAt(s, k)) && !s.cancelingAtFinish && ChildSucceeded(s)
    ensures Request(s).code.Succeeded? ==>
              Request(s) == GoalResult(Succeeded, COMPLETED, s.child.value.payload.value.errorCode)
  {
    hide Finish;
    var k := LoopEndsSomewhere(s);
    RequestSkipsQuiet(s, k);
    FinishExactly(true, s.child, s.dispatched, s.cancelTimedOut);
    FinishExactly(s.cancelingAtFinish, s.child, s.dispatched, s.cancelTimedOut);
    if j: nat :| TreeEndsAt(s, j) {
      LoopEndsOnce(s, k, j);
    }
    assert Request(s).code.Succeeded? ==> TreeEndsAt(s, k);
  }

  /** It asks for a cancelled end exactly if a pass, or the look after the tree's end, saw the cancel, the cancel of the
      child did not time out, and the child's result, if known, says cancelled, or no child was dispatched. */
  lemma RequestCancelsExactlyWhen(s: Script)
    ensures Request(s).code.Canceled? <==>
              && ((exists k: nat :: CancelSeenAt(s, k)) || (s.cancelingAtFinish && exists k: nat :: TreeEndsAt(s, k)))
              && !s.cancelTimedOut
              && (if s.child.Some? && s.child.value.payload.Some?
                  then s.child.value.payload.value.outcome.CANCELED? else !s.dispatched)
  {
    hide Finish;
    var k := LoopEndsSomewhere(s);
    RequestSkipsQuiet(s, k);
    FinishExactly(true, s.child, s.dispatched, s.cancelTimedOut);
    FinishExactly(s.cancelingAtFinish, s.child, s.dispatched, s.cancelTimedOut);
    if j: nat :| TreeEndsAt(s, j) {
      LoopEndsOnce(s, k, j);
    }
    if j: nat :| CancelSeenAt(s, j) {
      LoopEndsOnce(s, k, j);
    }
    assert Request(s).code.Canceled? ==> TreeEndsAt(s, k) || CancelSeenAt(s, k);
  }

  /** When the loop is left otherwise, the request is a safe stop whose code names the reason: the node stopped (205),
      the deadline passed (209), or the tick threw (208). */
  lemma RequestStopsWith(s: Script, k: nat)
    requires QuietUpTo(s, k)
    ensures k == |s.passes| || !s.passes[k].running ==> Request(s) == GoalResult(Aborted, SAFE_STOP, 205)
    ensures k < |s.passes| && s.passes[k].running && !s.passes[k].canceling ==>
              var p := s.passes[k];
              && (p.expiredBefore ==> Request(s) == GoalResult(Aborted, SAFE_STOP, 209))
              && (!p.expiredBefore && p.status.Throws? ==> Request(s) == GoalResult(Aborted, SAFE_STOP, 208))
              && (!p.expiredBefore && !p.status.Throws? && p.expiredAfter ==>
                    Request(s) == GoalResult(Aborted, SAFE_STOP, 209))
  {
    RequestSkipsQuiet(s, k);
  }

  /** What a client is told when the server no longer knows its goal. */
  const UNKNOWN_RESULT := Delivery(None, Some(Payload(COMPLETED, 0)))

  /** An unknown child result makes an aborted workflow report COMPLETED; such a delivery is possible whatever the
      child really did. */
  lemma UnknownChildIsReportedCompleted(r: GoalResult)
    ensures Delivers(UNKNOWN_RESULT, r)
    ensures Finish(false, Some(UNKNOWN_RESULT), true, false) == GoalResult(Aborted, COMPLETED, 0)
  {
  }

  /** The loop of execute(). */
  method Execute(s: Script) returns (request: GoalResult)
    ensures request == Request(s)
  {
    var i := 0;
    while i < |s.passes| && s.passes[i].running
      invariant 0 <= i <= |s.passes|
      invariant Request(s) == Request(s.(passes := s.passes[i..]))
    {
      var p := s.passes[i];
      assert s.passes[i..][1..] == s.passes[i + 1..];
      if p.canceling {
        return Finish(true, s.child, s.dispatched, s.cancelTimedOut);
      }
      if p.expiredBefore {
        return SafeStop(ERROR_DEADLINE);
      }
      if p.status == Throws {
        return SafeStop(ERROR_INTERNAL);
      }
      if p.expiredAfter {
        return SafeStop(ERROR_DEADLINE);
      }
      if p.status != Running {
        return Finish(s.cancelingAtFinish, s.child, s.dispatched, s.cancelTimedOut);
      }
      i := i + 1;
    }
    return SafeStop(ERROR_SHUTDOWN);
  }

  /** The worker thread of one goal: execute, then the one call of terminal(). */
  method RunWorker(terminal: WorkflowTerminal, s: Script, now: nat, fate: Fate, fallbackFate: Fate)
    requires terminal.Valid() && !terminal.started
    modifies terminal
    ensures terminal.Valid()
    ensures var result := Commitment(Request(s), Accepts(old(terminal.history)), now, terminal.deadline);
            old(terminal.verdict).None? ==> terminal.verdict == CallVerdict(result, fate, fallbackFate)
    ensures old(terminal.verdict).None? && !fate.ThrowsBefore? ==>
              (terminal.verdict.value.code.Succeeded? <==>
                 && (exists k: nat :: TreeEndsAt(s, k)) && !s.cancelingAtFinish && ChildSucceeded(s)
                 && CancelAnswered(true) !in old(terminal.history) && now < terminal.deadline)
  {
    RequestSucceedsExactlyWhen(s);
    var request := Execute(s);
    var done := terminal.Terminal(request, now, fate, fallbackFate);
  }
}
