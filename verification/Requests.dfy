/** Gateway requests and the fingerprint that identifies what a request asks the device to do. */
module Requests {
  import opened Common

  /** The state column of a request. `Other` stands for any text the runtime itself never writes. */
  datatype RequestState =
    | Submitting | Running | Canceling | CancelFailed | TimedOut | Uncertain | Admitted
    | Completed | Canceled | SafeStop | DeviceFault | Aborted | Rejected
    | Other(name: string)

  /** The finished outcomes: the only states that may be replayed, evicted or reclaimed by age. */
  predicate IsTerminal(state: RequestState) {
    state.Completed? || state.Canceled? || state.SafeStop? || state.DeviceFault? || state.Aborted? || state.Rejected?
  }

  /** The six finished outcomes; nothing else is replayed, evicted or reclaimed, an unknown state least of all. */
  lemma FinishedStates(state: RequestState)
    ensures IsTerminal(state) <==> state in {Completed, Canceled, SafeStop, DeviceFault, Aborted, Rejected}
    ensures state in {Submitting, Running, Canceling, CancelFailed, TimedOut, Uncertain, Admitted} || state.Other? ==>
              !IsTerminal(state)
  {
  }

  datatype RequestRecord = RequestRecord(
    requestId: string, taskId: string, targetId: string, workflowId: string, timeoutMs: uint64,
    state: RequestState, outcome: uint8, errorCode: uint16, message: string)

  const DIGITS := "0123456789"

  function Decimal(n: nat): string {
    if n < 10 then [DIGITS[n]] else Decimal(n / 10) + [DIGITS[n % 10]]
  }

  /** One fingerprint field: its length in decimal, a colon, its characters. */
  function Field(value: string): string {
    Decimal(|value|) + ":" + value
  }

  function Fingerprint(r: RequestRecord): string {
    Field(r.requestId) + (Field(r.taskId) + (Field(r.targetId) + (Field(r.workflowId) + Field(Decimal(r.timeoutMs)))))
  }

  /** The fields that change what is executed. */
  predicate SamePayload(a: RequestRecord, b: RequestRecord) {
    && a.requestId == b.requestId && a.taskId == b.taskId && a.targetId == b.targetId
    && a.workflowId == b.workflowId && a.timeoutMs == b.timeoutMs
  }

  lemma {:induction false} DecimalHasNoColon(n: nat)
    ensures ':' !in Decimal(n)
  {
    if n >= 10 {
      DecimalHasNoColon(n / 10);
    }
  }

  lemma DecimalLength(n: nat)
    ensures |Decimal(n)| >= 1 && (n >= 10 ==> |Decimal(n)| >= 2)
  {
  }

  lemma {:induction false} DecimalInjective(m: nat, n: nat)
    requires Decimal(m) == Decimal(n)
    ensures m == n
  {
    var last := |Decimal(m)| - 1;
    assert Decimal(m)[last] == DIGITS[m % 10] && Decimal(n)[last] == DIGITS[n % 10];
    assert m % 10 == n % 10;
    if m >= 10 && n >= 10 {
      assert Decimal(m)[..last] == Decimal(m / 10) && Decimal(n)[..last] == Decimal(n / 10);
      DecimalInjective(m / 10, n / 10);
    } else {
      DecimalLength(m);
      DecimalLength(n);
    }
  }

  /** A field ends where its length prefix says, whatever follows it, so a text starts with at most one field. */
  lemma FieldIsPrefixFree(v: string, w: string, x: string, y: string)
    requires Field(v) + x == Field(w) + y
    ensures v == w && x == y
  {
    var s, i, j := Field(v) + x, |Decimal(|v|)|, |Decimal(|w|)|;
    DecimalHasNoColon(|v|);
    DecimalHasNoColon(|w|);
    assert s[..i] == Decimal(|v|) && s[..j] == Decimal(|w|);
    assert s[i] == ':' && s[j] == ':';
    assert forall k :: 0 <= k < i ==> s[k] == s[..i][k] != ':';
    assert forall k :: 0 <= k < j ==> s[k] == s[..j][k] != ':';
    DecimalInjective(|v|, |w|);
    assert v == s[i + 1..i + 1 + |v|] == w;
    assert x == s[i + 1 + |v|..] == y;
  }

  /** Equal fingerprints exactly for equal payloads: no field value can imitate a separator or move a boundary. */
  lemma FingerprintIsInjective(a: RequestRecord, b: RequestRecord)
    ensures Fingerprint(a) == Fingerprint(b) <==> SamePayload(a, b)
  {
    if Fingerprint(a) == Fingerprint(b) {
      var a4, b4 := Field(Decimal(a.timeoutMs)), Field(Decimal(b.timeoutMs));
      var a3, b3 := Field(a.workflowId) + a4, Field(b.workflowId) + b4;
      var a2, b2 := Field(a.targetId) + a3, Field(b.targetId) + b3;
      var a1, b1 := Field(a.taskId) + a2, Field(b.taskId) + b2;
      FieldIsPrefixFree(a.requestId, b.requestId, a1, b1);
      FieldIsPrefixFree(a.taskId, b.taskId, a2, b2);
      FieldIsPrefixFree(a.targetId, b.targetId, a3, b3);
      FieldIsPrefixFree(a.workflowId, b.workflowId, a4, b4);
      assert a4 + "" == a4 && b4 + "" == b4;
      FieldIsPrefixFree(Decimal(a.timeoutMs), Decimal(b.timeoutMs), "", "");
      DecimalInjective(a.timeoutMs, b.timeoutMs);
    }
  }

  /** The stored format: every field as its length, a colon and its text, in this order, the timeout in decimal. */
  lemma FingerprintFormat()
    ensures Fingerprint(RequestRecord("a", "bc", "d", "e", 7, Submitting, 0, 0, "")) == "1:a2:bc1:d1:e1:7"
    ensures Decimal(305) == "305"
  {
    assert Field("a") == "1:a" && Field("bc") == "2:bc" && Field("d") == "1:d" && Field("e") == "1:e";
    assert Decimal(7) == "7" && Field("7") == "1:7";
    assert Decimal(30) == "30";
  }

  lemma FingerprintIsNonEmpty(r: RequestRecord)
    ensures |Fingerprint(r)| > 0
  {
    DecimalLength(|r.requestId|);
  }
}
