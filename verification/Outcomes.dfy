/** The terminal vocabulary shared by the three action layers. */
module Outcomes {
  import opened Common

  /** How an action goal ended on the server side. */
  datatype ResultCode = Succeeded | Aborted | Canceled

  /** The `outcome` field of every result message. */
  datatype Outcome = COMPLETED | CANCELED | SAFE_STOP | DEVICE_FAULT

  datatype GoalResult = GoalResult(code: ResultCode, outcome: Outcome, errorCode: uint16)

  function SafeStop(errorCode: uint16): GoalResult {
    GoalResult(Aborted, SAFE_STOP, errorCode)
  }

  /** How a goal-handle call behaves: it may throw with or without having taken effect. */
  datatype Fate = Returns | ThrowsBefore | ThrowsAfter

  datatype Payload = Payload(outcome: Outcome, errorCode: uint16)

  /** What a result callback hands to the client; no code means that the server no longer knew the goal. */
  datatype Delivery = Delivery(code: Option<ResultCode>, payload: Option<Payload>)

  /** The result of a goal that the server no longer knows; its message, if there is one, is default-constructed. */
  predicate IsUnknown(d: Delivery) {
    d.code.None? && (d.payload.None? || d.payload == Some(Payload(COMPLETED, 0)))
  }

  /** A client is told the result the server committed, or gets an unknown one. */
  predicate Delivers(d: Delivery, r: GoalResult) {
    d == Delivery(Some(r.code), Some(Payload(r.outcome, r.errorCode))) || IsUnknown(d)
  }
}
