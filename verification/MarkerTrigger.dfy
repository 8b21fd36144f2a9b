/** The marker trigger: debounce one marker, fire once, and rearm only after the scene was empty for a while. */
module MarkerTrigger {
  import opened Common

  datatype MarkerMapping = MarkerMapping(markerId: int, workflowId: string, targetId: string)

  datatype Call = Observe(visibleIds: seq<int>, workflowActive: bool, immediate: bool) | OnTerminal

  datatype Config = Config(mappings: seq<MarkerMapping>, confirmFrames: nat, rearmMissingFrames: nat)

  /** What the constructor insists on. */
  ghost predicate Accepted(c: Config) {
    && c.mappings != [] && c.confirmFrames > 0 && c.rearmMissingFrames > 0
    && (forall m :: m in c.mappings ==> 0 <= m.markerId <= 49 && m.workflowId != [] && m.targetId != [])
    && (forall i, j :: 0 <= i < j < |c.mappings| ==> c.mappings[i].markerId != c.mappings[j].markerId)
  }

  datatype State = State(armed: bool, streakId: Option<int>, streakFrames: nat, missingFrames: nat)

  const INIT := State(true, None, 0, 0)

  /** The mappings whose marker is in view, in configuration order. */
  function Visible(mappings: seq<MarkerMapping>, ids: seq<int>): seq<MarkerMapping> {
    if mappings == [] then []
    else
      var last := mappings[|mappings| - 1];
      Visible(mappings[..|mappings| - 1], ids) + if last.markerId in ids then [last] else []
  }

  function Step(c: Config, s: State, call: Call): (State, Option<MarkerMapping>) {
    match call
    case OnTerminal => (State(false, None, 0, 0), None)
    case Observe(ids, active, immediate) =>
      var visible := Visible(c.mappings, ids);
      if active then (s.(streakId := None, streakFrames := 0, missingFrames := 0), None)
      else if visible == [] then
        if s.armed then (s.(streakId := None, streakFrames := 0), None)
        else if s.missingFrames + 1 >= c.rearmMissingFrames then (State(true, None, 0, 0), None)
        else (State(false, None, 0, s.missingFrames + 1), None)
      else if |visible| > 1 then (s.(streakId := None, streakFrames := 0), None)
      else if !s.armed then (s.(missingFrames := 0), None)
      else
        var id := visible[0].markerId;
        var frames := if s.streakId == Some(id) then s.streakFrames + 1 else 1;
        if !immediate && frames < c.confirmFrames then (State(true, Some(id), frames, 0), None)
        else (State(false, None, 0, 0), Some(visible[0]))
  }

  function After(c: Config, h: seq<Call>): State {
    if h == [] then INIT else Step(c, After(c, h[..|h| - 1]), h[|h| - 1]).0
  }

  /** The event returned by the `k`-th call. */
  function Fired(c: Config, h: seq<Call>, k: nat): Option<MarkerMapping>
    requires k < |h|
  {
    Step(c, After(c, h[..k]), h[k]).1
  }

  /** Exactly one mapped marker, `m`, is in view and no workflow is active. */
  predicate Shows(c: Config, call: Call, m: MarkerMapping) {
    call.Observe? && !call.workflowActive && Visible(c.mappings, call.visibleIds) == [m]
  }

  predicate Empty(c: Config, call: Call) {
    call.Observe? && !call.workflowActive && Visible(c.mappings, call.visibleIds) == []
  }

  predicate Ambiguous(c: Config, call: Call) {
    call.Observe? && !call.workflowActive && |Visible(c.mappings, call.visibleIds)| > 1
  }

  /** The length of the run of calls showing `m` that ends the history. */
  function TrailingRun(c: Config, h: seq<Call>, m: MarkerMapping): nat {
    if h == [] || !Shows(c, h[|h| - 1], m) then 0 else TrailingRun(c, h[..|h| - 1], m) + 1
  }

  /** The empty frames in the longest end of the history that has empty and ambiguous frames only. */
  function QuietRun(c: Config, h: seq<Call>): nat {
    if h == [] then 0
    else if Empty(c, h[|h| - 1]) then QuietRun(c, h[..|h| - 1]) + 1
    else if Ambiguous(c, h[|h| - 1]) then QuietRun(c, h[..|h| - 1])
    else 0
  }

  lemma {:induction false} TrailingRunMeans(c: Config, h: seq<Call>, m: MarkerMapping, k: nat)
    ensures TrailingRun(c, h, m) >= k <==>
            k <= |h| && forall i :: |h| - k <= i < |h| ==> Shows(c, h[i], m)
  {
    if h != [] && k > 0 {
      var n := |h| - 1;
      TrailingRunMeans(c, h[..n], m, k - 1);
      if Shows(c, h[n], m) && k <= |h| && forall i :: |h| - k <= i < |h| ==> Shows(c, h[i], m) {
        forall i | n - (k - 1) <= i < n ensures Shows(c, h[..n][i], m) {
          assert Shows(c, h[i], m);
        }
      }
      if TrailingRun(c, h, m) >= k {
        forall i | |h| - k <= i < |h| ensures Shows(c, h[i], m) {
          assert i < n ==> Shows(c, h[..n][i], m);
        }
      }
    }
  }

  function Empties(c: Config, calls: seq<Call>): nat {
    if calls == [] then 0
    else Empties(c, calls[..|calls| - 1]) + if Empty(c, calls[|calls| - 1]) then 1 else 0
  }

  lemma {:induction false} QuietRunMeans(c: Config, h: seq<Call>) returns (start: nat)
    ensures start <= |h|
    ensures forall i :: start <= i < |h| ==> Empty(c, h[i]) || Ambiguous(c, h[i])
    ensures start > 0 ==> !Empty(c, h[start - 1]) && !Ambiguous(c, h[start - 1])
    ensures QuietRun(c, h) == Empties(c, h[start..])
  {
    start := |h|;
    if h != [] && (Empty(c, h[|h| - 1]) || Ambiguous(c, h[|h| - 1])) {
      var n := |h| - 1;
      start := QuietRunMeans(c, h[..n]);
      assert forall i :: start <= i < n ==> h[..n][i] == h[i];
      assert h[start..][..n - start] == h[..n][start..];
    }
  }

  /** The streak and missing counters are exactly the history's runs, while they matter. */
  ghost predicate Inv(c: Config, h: seq<Call>, s: State) {
    && (s.armed ==>
          && s.missingFrames == 0
          && (s.streakId.None? ==> s.streakFrames == 0)
          && forall m :: m in c.mappings ==>
               TrailingRun(c, h, m) == if s.streakId == Some(m.markerId) then s.streakFrames else 0)
    && (!s.armed ==> s.streakId == None && s.missingFrames == QuietRun(c, h) < c.rearmMissingFrames)
  }

  lemma {:induction false} VisibleAreMapped(mappings: seq<MarkerMapping>, ids: seq<int>, m: MarkerMapping)
    requires m in Visible(mappings, ids)
    ensures m in mappings && m.markerId in ids
  {
    if m in Visible(mappings[..|mappings| - 1], ids) {
      VisibleAreMapped(mappings[..|mappings| - 1], ids, m);
    }
  }

  lemma {:induction false} MappedAreVisible(mappings: seq<MarkerMapping>, ids: seq<int>, m: MarkerMapping)
    requires m in mappings && m.markerId in ids
    ensures m in Visible(mappings, ids)
  {
    var n := |mappings| - 1;
    if m != mappings[n] {
      assert mappings == mappings[..n] + [mappings[n]];
      MappedAreVisible(mappings[..n], ids, m);
    }
  }

  ghost predicate Once<T>(v: seq<T>) {
    forall i, j :: 0 <= i < j < |v| ==> v[i] != v[j]
  }

  lemma {:induction false} VisibleOnce(mappings: seq<MarkerMapping>, ids: seq<int>)
    requires forall i, j :: 0 <= i < j < |mappings| ==> mappings[i].markerId != mappings[j].markerId
    ensures Once(Visible(mappings, ids))
  {
    if mappings != [] {
      var n := |mappings| - 1;
      var rest := mappings[..n];
      assert forall i :: 0 <= i < n ==> rest[i] == mappings[i];
      VisibleOnce(rest, ids);
      var v := Visible(rest, ids);
      forall i | 0 <= i < |v| ensures v[i] != mappings[n] {
        VisibleAreMapped(rest, ids, v[i]);
      }
    }
  }

  lemma SizeByMembers<T(!new)>(v: seq<T>, m: T)
    requires Once(v)
    ensures v == [m] <==> m in v && forall x :: x in v ==> x == m
    ensures v == [] <==> forall x :: x !in v
    ensures |v| > 1 <==> exists x, y :: x in v && y in v && x != y
  {
    if |v| > 1 {
      assert v[0] in v && v[1] in v && v[0] != v[1];
    }
    if v != [] {
      assert v[0] in v;
    }
  }

  /** What the three kinds of frames are, in terms of the configuration: one mapped marker in view and no other, none,
      or several. Markers without a mapping do not count. */
  lemma FramesMean(c: Config, ids: seq<int>, active: bool, immediate: bool, m: MarkerMapping)
    requires Accepted(c)
    ensures var call := Call.Observe(ids, active, immediate);
            && (Shows(c, call, m) <==>
                  && !active && m in c.mappings && m.markerId in ids
                  && forall other :: other in c.mappings && other != m ==> other.markerId !in ids)
            && (Empty(c, call) <==> !active && forall other :: other in c.mappings ==> other.markerId !in ids)
            && (Ambiguous(c, call) <==>
                  !active && exists x, y ::
                    x in c.mappings && y in c.mappings && x != y && x.markerId in ids && y.markerId in ids)
  {
    var v := Visible(c.mappings, ids);
    VisibleOnce(c.mappings, ids);
    forall x ensures x in v <==> x in c.mappings && x.markerId in ids {
      if x in v {
        VisibleAreMapped(c.mappings, ids, x);
      }
      if x in c.mappings && x.markerId in ids {
        MappedAreVisible(c.mappings, ids, x);
      }
    }
    SizeByMembers(v, m);
  }

  lemma {:induction false} CountersAreRuns(c: Config, h: seq<Call>)
    requires Accepted(c)
    ensures Inv(c, h, After(c, h))
  {
    if h != [] {
      var before, call := h[..|h| - 1], h[|h| - 1];
      CountersAreRuns(c, before);
      if call.Observe? && |Visible(c.mappings, call.visibleIds)| == 1 {
        VisibleAreMapped(c.mappings, call.visibleIds, Visible(c.mappings, call.visibleIds)[0]);
      }
    }
  }

  /** A call fires `m` exactly when the trigger is armed and the call shows `m`, immediately or at the end of a full
      run: the last `confirmFrames` calls, this one included, all showed `m` alone with no workflow active. */
  lemma FiresExactlyAfterConfirmation(c: Config, h: seq<Call>, k: nat, m: MarkerMapping)
    requires Accepted(c) && k < |h|
    ensures Fired(c, h, k) == Some(m) <==>
            && After(c, h[..k]).armed
            && Shows(c, h[k], m)
            && (h[k].immediate
                || (c.confirmFrames <= k + 1 && forall i :: k + 1 - c.confirmFrames <= i <= k ==> Shows(c, h[i], m)))
  {
    var upTo := h[..k + 1];
    assert upTo[..k] == h[..k];
    CountersAreRuns(c, h[..k]);
    TrailingRunMeans(c, upTo, m, c.confirmFrames);
    assert forall i :: 0 <= i <= k ==> upTo[i] == h[i];
    if Shows(c, h[k], m) {
      VisibleAreMapped(c.mappings, h[k].visibleIds, m);
    }
  }

  predicate Disarms(c: Config, h: seq<Call>, k: nat)
    requires k < |h|
  {
    h[k].OnTerminal? || Fired(c, h, k).Some?
  }

  ghost predicate RearmedAfter(c: Config, h: seq<Call>, k: nat) {
    exists j: nat :: k < j <= |h| && QuietRun(c, h[..j]) >= c.rearmMissingFrames
  }

  lemma RearmedLater(c: Config, h: seq<Call>, k: nat)
    requires h != [] && RearmedAfter(c, h[..|h| - 1], k)
    ensures RearmedAfter(c, h, k)
  {
    var n := |h| - 1;
    var j: nat :| k < j <= n && QuietRun(c, h[..n][..j]) >= c.rearmMissingFrames;
    assert h[..n][..j] == h[..j];
  }

  /** The trigger is armed exactly when every firing and every on_terminal was later followed by the required number of
      empty frames in one quiet stretch. */
  lemma {:induction false} ArmedExactlyWhenRearmed(c: Config, h: seq<Call>)
    requires Accepted(c)
    ensures After(c, h).armed <==> forall k: nat :: k < |h| && Disarms(c, h, k) ==> RearmedAfter(c, h, k)
  {
    if h != [] {
      var n := |h| - 1;
      var before := h[..n];
      ArmedExactlyWhenRearmed(c, before);
      CountersAreRuns(c, before);
      CountersAreRuns(c, h);
      assert h[..|h|] == h;
      forall k: nat | k < n ensures Disarms(c, h, k) == Disarms(c, before, k) {
        assert before[..k] == h[..k];
      }
      if After(c, h).armed {
        forall k: nat | k < |h| && Disarms(c, h, k) ensures RearmedAfter(c, h, k) {
          if After(c, before).armed {
            RearmedLater(c, h, k);
          } else {
            assert QuietRun(c, h[..|h|]) >= c.rearmMissingFrames;
          }
        }
      } else if After(c, before).armed {
        assert Disarms(c, h, n);
        assert !RearmedAfter(c, h, n) by {
          assert forall j: nat :: n < j <= |h| ==> h[..j] == h;
        }
      } else {
        var k: nat :| k < n && Disarms(c, before, k) && !RearmedAfter(c, before, k);
        assert Disarms(c, h, k);
        assert !RearmedAfter(c, h, k) by {
          forall j: nat | k < j <= |h| ensures QuietRun(c, h[..j]) < c.rearmMissingFrames {
            if j <= n {
              assert before[..j] == h[..j];
            } else {
              assert h[..j] == h;
            }
          }
        }
      }
    }
  }

  /** Between two firings there is a stretch of empty and ambiguous frames only, with at least `rearmMissingFrames`
      empty ones: no single marker, no active workflow and no on_terminal interrupts it. */
  lemma FiringsAreSeparated(c: Config, h: seq<Call>, first: nat, second: nat) returns (start: nat, end: nat)
    requires Accepted(c) && first < second < |h|
    requires Fired(c, h, first).Some? && Fired(c, h, second).Some?
    ensures first < start <= end <= second
    ensures forall i :: start <= i < end ==> Empty(c, h[i]) || Ambiguous(c, h[i])
    ensures Empties(c, h[start..end]) >= c.rearmMissingFrames
  {
    var upTo := h[..second];
    ArmedExactlyWhenRearmed(c, upTo);
    FiresExactlyAfterConfirmation(c, h, second, Fired(c, h, second).value);
    assert upTo[..first] == h[..first];
    assert Disarms(c, upTo, first);
    end :| first < end <= |upTo| && QuietRun(c, upTo[..end]) >= c.rearmMissingFrames;
    assert upTo[..end] == h[..end];
    start := QuietRunMeans(c, h[..end]);
    assert forall i :: start <= i < end ==> h[..end][i] == h[i];
    assert h[..end][start..] == h[start..end];
    FiresExactlyAfterConfirmation(c, h, first, Fired(c, h, first).value);
    assert h[..end][first] == h[first];
  }

  class Trigger {
    const config: Config
    var armed: bool
    var streakId: Option<int>
    var streakFrames: nat
    var missingFrames: nat

    constructor (config: Config)
      requires Accepted(config)
      ensures View() == INIT && this.config == config
    {
      this.config := config;
      armed, streakId, streakFrames, missingFrames := true, None, 0, 0;
    }

    function View(): State
      reads this
    {
      State(armed, streakId, streakFrames, missingFrames)
    }

    method VisibleMappings(visibleIds: seq<int>) returns (visible: seq<MarkerMapping>)
      ensures visible == Visible(config.mappings, visibleIds)
    {
      visible := [];
      var i := 0;
      assert config.mappings[..0] == [];
      while i < |config.mappings|
        invariant 0 <= i <= |config.mappings|
        invariant visible == Visible(config.mappings[..i], visibleIds)
      {
        assert config.mappings[..i + 1][..i] == config.mappings[..i];
        if config.mappings[i].markerId in visibleIds {
          visible := visible + [config.mappings[i]];
        }
        i := i + 1;
      }
      assert config.mappings[..i] == config.mappings;
    }

    method Observe(visibleIds: seq<int>, workflowActive: bool, immediate: bool) returns (event: Option<MarkerMapping>)
      modifies this
      ensures (View(), event) == Step(config, old(View()), Call.Observe(visibleIds, workflowActive, immediate))
    {
      if workflowActive {
        streakId, streakFrames, missingFrames := None, 0, 0;
        return None;
      }
      var visible := VisibleMappings(visibleIds);
      if visible == [] {
        streakId, streakFrames := None, 0;
        if !armed {
          missingFrames := missingFrames + 1;
          if missingFrames >= config.rearmMissingFrames {
            armed, missingFrames := true, 0;
          }
        }
        return None;
      }
      if |visible| > 1 {
        streakId, streakFrames := None, 0;
        return None;
      }
      missingFrames := 0;
      if !armed {
        return None;
      }
      if streakId == Some(visible[0].markerId) {
        streakFrames := streakFrames + 1;
      } else {
        streakId, streakFrames := Some(visible[0].markerId), 1;
      }
      if !immediate && streakFrames < config.confirmFrames {
        return None;
      }
      armed, streakId, streakFrames := false, None, 0;
      return Some(visible[0]);
    }

    method OnTerminal()
      modifies this
      ensures (View(), None) == Step(config, old(View()), Call.OnTerminal)
    {
      armed, streakId, streakFrames, missingFrames := false, None, 0, 0;
    }
  }
}
