/** Conversions between wire durations and local millisecond timeouts, and the budget of one device command. */
module TimeBudget {
  import opened Common

  const NS_PER_SECOND: int64 := 1_000_000_000
  const NS_PER_MS: int64 := 1_000_000
  const GATEWAY_MAX_TIMEOUT_MS: uint64 := INT32_MAX * 1000 + 999

  /** A duration as it travels in a goal: signed seconds and an unsigned nanosecond part. */
  datatype Duration = Duration(sec: int32, nanosec: uint32)

  function TotalNanoseconds(d: Duration): int {
    d.sec * NS_PER_SECOND + d.nanosec
  }

  /** The bridge's conversion. Every intermediate value is typed `int64`, so overflow would not verify. */
  function ToMilliseconds(d: Duration, maxMs: int64): Option<int64> {
    if maxMs <= 0 || d.sec < 0 || d.nanosec >= NS_PER_SECOND then None
    else
      var seconds: int64 := d.sec;
      var product: int64 := seconds * NS_PER_SECOND;
      var total: int64 := product + d.nanosec;
      if total <= 0 then None
      else
        var shifted: int64 := total + NS_PER_MS;
        var rounded: int64 := (shifted - 1) / NS_PER_MS;
        if rounded <= 0 || rounded > maxMs then None else Some(rounded)
  }

  /** `ms` is the least whole number of milliseconds not shorter than `d`. */
  ghost predicate IsCeilingMs(d: Duration, ms: int) {
    (ms - 1) * NS_PER_MS < TotalNanoseconds(d) <= ms * NS_PER_MS
  }

  /** A well-formed duration is accepted exactly when its ceiling lies in [1, maxMs], and the ceiling is returned. */
  lemma ToMillisecondsIsCeiling(d: Duration, maxMs: int64, ms: int64)
    ensures ToMilliseconds(d, maxMs) == Some(ms) <==>
            d.sec >= 0 && d.nanosec < NS_PER_SECOND && IsCeilingMs(d, ms) && 1 <= ms <= maxMs
  {
    if d.sec >= 0 && d.nanosec < NS_PER_SECOND {
      var total := TotalNanoseconds(d);
      var c := (total + NS_PER_MS - 1) / NS_PER_MS;
      assert (c - 1) * NS_PER_MS < total <= c * NS_PER_MS;
      if IsCeilingMs(d, ms) {
        assert ms == c;
      }
    }
  }

  lemma ToMillisecondsRejection(d: Duration, maxMs: int64)
    ensures ToMilliseconds(d, maxMs) == None <==>
            (d.sec < 0 || d.nanosec >= NS_PER_SECOND || TotalNanoseconds(d) <= 0
             || TotalNanoseconds(d) > maxMs * NS_PER_MS)
  {
    if d.sec >= 0 && d.nanosec < NS_PER_SECOND {
      var total := TotalNanoseconds(d);
      var c := (total + NS_PER_MS - 1) / NS_PER_MS;
      assert (c - 1) * NS_PER_MS < total <= c * NS_PER_MS;
      if total > maxMs * NS_PER_MS {
        assert c > maxMs;
      } else {
        assert c <= maxMs;
      }
    }
  }

  /** The millisecond split used by the executor for the ACK timeout and by the gateway for a workflow timeout. */
  function SplitMilliseconds(ms: nat): (int, int) {
    (ms / 1000, ms % 1000 * 1_000_000)
  }

  /** The gateway's bound on `timeout_ms` is exactly the bound under which the split fits the goal's field types,
      and a split that fits is a duration every lower layer accepts as positive. */
  lemma GatewayTimeoutFits(timeoutMs: uint64)
    ensures var (sec, nanosec) := SplitMilliseconds(timeoutMs);
            && (timeoutMs <= GATEWAY_MAX_TIMEOUT_MS <==> sec <= INT32_MAX)
            && 0 <= nanosec < NS_PER_SECOND
            && (timeoutMs > 0 <==> sec > 0 || nanosec > 0)
            && sec * 1000 + nanosec / 1_000_000 == timeoutMs
  {
    assert timeoutMs == timeoutMs / 1000 * 1000 + timeoutMs % 1000;
  }

  /** The bridge reads back exactly the timeout the executor wrote. */
  lemma SplitThenToMilliseconds(ms: nat, maxMs: int64)
    requires ms <= GATEWAY_MAX_TIMEOUT_MS
    ensures var (sec, nanosec) := SplitMilliseconds(ms);
            ToMilliseconds(Duration(sec, nanosec), maxMs) == if 1 <= ms <= maxMs then Some(ms) else None
  {
    var (sec, nanosec) := SplitMilliseconds(ms);
    var d := Duration(sec, nanosec);
    assert ms == ms / 1000 * 1000 + ms % 1000;
    assert TotalNanoseconds(d) == ms * NS_PER_MS;
    if 1 <= ms <= maxMs {
      ToMillisecondsIsCeiling(d, maxMs, ms);
    } else {
      ToMillisecondsRejection(d, maxMs);
    }
  }

  /** The executor's ACK timeout for the child command; it gives up before this point below 3 ms. */
  function ChildAckTimeout(remainingMs: int64, configuredMs: int64): (t: int64)
    requires remainingMs >= 3
  {
    var third := remainingMs / 3;
    var perAck := if third > 1 then third else 1;
    if configuredMs < perAck then configuredMs else perAck
  }

  /** With an ACK timeout configured in [1, 60000], the bridge runs each of its two ACK windows for exactly the
      executor's timeout, and both together leave a third of the task's remaining time for the STOP exchange. */
  lemma AckWindowsLeaveAThird(remainingMs: int64, configuredMs: int64, bridgeMaxMs: int64)
    requires remainingMs >= 3 && 1 <= configuredMs <= 60000
    ensures var t := ChildAckTimeout(remainingMs, configuredMs);
            && 1 <= t <= configuredMs
            && 3 * t <= remainingMs
            && 3 * (t + t) <= 2 * remainingMs
            && (forall u: int :: t < u <= configuredMs ==> 3 * u > remainingMs)
            && var (sec, nanosec) := SplitMilliseconds(t);
               ToMilliseconds(Duration(sec, nanosec), bridgeMaxMs) == if t <= bridgeMaxMs then Some(t) else None
  {
    SplitThenToMilliseconds(ChildAckTimeout(remainingMs, configuredMs), bridgeMaxMs);
  }
}
