/** The task history: one row per task, written once, and nearest-rank statistics over the stored durations. */
module HistoryStats {
  import opened Common

  datatype TaskRecord = TaskRecord(
    taskId: string, requestId: string, workflowId: string, goalId: string, targetId: string,
    actionStatus: uint8, outcome: uint8, errorCode: uint16, durationMs: uint64, message: string, completedAtNs: int64)

  datatype RuntimeStats = RuntimeStats(
    hasData: bool, sampleCount: nat, outcomeCounts: seq<nat>, p50Ms: nat, p95Ms: nat, p99Ms: nat, maxMs: nat)

  /** The comparison behind a repeated insert; the three correlation ids are not part of it. */
  predicate Same(a: TaskRecord, b: TaskRecord) {
    && a.taskId == b.taskId && a.targetId == b.targetId && a.actionStatus == b.actionStatus && a.outcome == b.outcome
    && a.errorCode == b.errorCode && a.durationMs == b.durationMs && a.message == b.message
    && a.completedAtNs == b.completedAtNs
  }

  function Find(rows: seq<TaskRecord>, taskId: string): Option<TaskRecord> {
    if rows == [] then None
    else if rows[|rows| - 1].taskId == taskId then Some(rows[|rows| - 1])
    else Find(rows[..|rows| - 1], taskId)
  }

  /** `databaseOk` is false when a statement or the commit fails, which rolls the transaction back. */
  function Inserted(rows: seq<TaskRecord>, r: TaskRecord, databaseOk: bool): (seq<TaskRecord>, bool) {
    if r.durationMs > INT64_MAX || !databaseOk then (rows, false)
    else match Find(rows, r.taskId)
      case None => (rows + [r], true)
      case Some(existing) => (rows, Same(existing, r))
  }

  datatype Attempt = Attempt(record: TaskRecord, databaseOk: bool)

  function InsertAll(rows: seq<TaskRecord>, attempts: seq<Attempt>): seq<TaskRecord> {
    if attempts == [] then rows
    else
      var last := attempts[|attempts| - 1];
      Inserted(InsertAll(rows, attempts[..|attempts| - 1]), last.record, last.databaseOk).0
  }

  ghost predicate OneRowPerTask(rows: seq<TaskRecord>) {
    && (forall i, j :: 0 <= i < j < |rows| ==> rows[i].taskId != rows[j].taskId)
    && (forall i :: 0 <= i < |rows| ==> rows[i].durationMs <= INT64_MAX)
  }

  lemma {:induction false} FindFinds(rows: seq<TaskRecord>, taskId: string)
    ensures Find(rows, taskId).None? <==> forall i :: 0 <= i < |rows| ==> rows[i].taskId != taskId
    ensures Find(rows, taskId).Some? ==> Find(rows, taskId).value in rows && Find(rows, taskId).value.taskId == taskId
  {
    if rows != [] {
      FindFinds(rows[..|rows| - 1], taskId);
      assert forall i :: 0 <= i < |rows| - 1 ==> rows[..|rows| - 1][i] == rows[i];
    }
  }

  /** Whatever is inserted later, and however often, a task's row stays as it was first written, and there is never a
      second one. */
  lemma {:induction false} FirstWriteStays(rows: seq<TaskRecord>, attempts: seq<Attempt>, taskId: string)
    requires OneRowPerTask(rows)
    ensures rows <= InsertAll(rows, attempts) && OneRowPerTask(InsertAll(rows, attempts))
    ensures Find(rows, taskId).Some? ==> Find(InsertAll(rows, attempts), taskId) == Find(rows, taskId)
  {
    if attempts != [] {
      var last := attempts[|attempts| - 1];
      var before := InsertAll(rows, attempts[..|attempts| - 1]);
      FirstWriteStays(rows, attempts[..|attempts| - 1], taskId);
      FindFinds(before, last.record.taskId);
      FindFinds(before, taskId);
      assert (before + [last.record])[..|before|] == before;
    }
  }

  /** An insert is acknowledged exactly when the duration fits, the database works, and the task is new or its stored
      row agrees on the compared fields; afterwards the task then has a row that agrees with the record. */
  lemma InsertAnswers(rows: seq<TaskRecord>, r: TaskRecord, databaseOk: bool)
    ensures var (next, ok) := Inserted(rows, r, databaseOk);
            && (ok <==> && r.durationMs <= INT64_MAX && databaseOk
                        && (Find(rows, r.taskId).None? || Same(Find(rows, r.taskId).value, r)))
            && (ok ==> Find(next, r.taskId).Some? && Same(Find(next, r.taskId).value, r))
            && (next != rows ==> ok && next == rows + [r] && Find(next, r.taskId) == Some(r))
  {
  }

  /** A repeat is refused as soon as one of the compared fields differs, and only then. */
  lemma DifferingRepeatIsRefused(rows: seq<TaskRecord>, stored: TaskRecord, r: TaskRecord)
    requires Find(rows, r.taskId) == Some(stored) && r.durationMs <= INT64_MAX
    ensures stored.taskId == r.taskId
    ensures Inserted(rows, r, true).0 == rows
    ensures Inserted(rows, r, true).1 <==>
              && stored.targetId == r.targetId && stored.actionStatus == r.actionStatus && stored.outcome == r.outcome
              && stored.errorCode == r.errorCode && stored.durationMs == r.durationMs && stored.message == r.message
              && stored.completedAtNs == r.completedAtNs
  {
    FindFinds(rows, r.taskId);
  }

  /** The correlation ids are not compared: a completion of the same task under another request is acknowledged, but
      its own ids are dropped. */
  lemma CorrelationIdsAreNotCompared(rows: seq<TaskRecord>, r: TaskRecord, requestId: string)
    requires Find(rows, r.taskId) == Some(r) && r.durationMs <= INT64_MAX && requestId != r.requestId
    ensures var repeated := r.(requestId := requestId);
            Inserted(rows, repeated, true) == (rows, true) && Find(rows, r.taskId) != Some(repeated)
  {
  }

  function Durations(rows: seq<TaskRecord>): seq<nat> {
    seq(|rows|, i requires 0 <= i < |rows| => rows[i].durationMs)
  }

  /** The statistics are those of the stored durations. */
  lemma DurationsAreStored(rows: seq<TaskRecord>, ms: nat)
    ensures ms in Durations(rows) <==> exists i :: 0 <= i < |rows| && rows[i].durationMs == ms
    ensures |Durations(rows)| == |rows|
  {
    var s := Durations(rows);
    assert forall i :: 0 <= i < |rows| ==> s[i] == rows[i].durationMs;
    if i :| 0 <= i < |rows| && rows[i].durationMs == ms {
      assert s[i] in s;
    }
  }

  function InsertSorted(s: seq<nat>, x: nat): seq<nat> {
    if s == [] then [x]
    else if s[|s| - 1] <= x then s + [x]
    else InsertSorted(s[..|s| - 1], x) + [s[|s| - 1]]
  }

  /** The rows in the order of `ORDER BY duration_ms`. */
  function Sorted(s: seq<nat>): seq<nat> {
    if s == [] then [] else InsertSorted(Sorted(s[..|s| - 1]), s[|s| - 1])
  }

  function NearestRankOffset(count: nat, percent: nat): int {
    (percent * count + 99) / 100 - 1
  }

  function AtMost(s: seq<nat>, v: nat): nat {
    if s == [] then 0 else AtMost(s[..|s| - 1], v) + if s[|s| - 1] <= v then 1 else 0
  }

  function Below(s: seq<nat>, v: nat): nat {
    if s == [] then 0 else Below(s[..|s| - 1], v) + if s[|s| - 1] < v then 1 else 0
  }

  ghost predicate Ascending(s: seq<nat>) {
    forall i, j :: 0 <= i < j < |s| ==> s[i] <= s[j]
  }

  lemma {:induction false} InsertSortedContents(s: seq<nat>, x: nat)
    ensures |InsertSorted(s, x)| == |s| + 1 && multiset(InsertSorted(s, x)) == multiset(s) + multiset{x}
  {
    if s != [] && s[|s| - 1] > x {
      var rest, last := s[..|s| - 1], s[|s| - 1];
      InsertSortedContents(rest, x);
      assert InsertSorted(s, x) == InsertSorted(rest, x) + [last];
      assert multiset(s) == multiset(rest) + multiset{last} by {
        assert s == rest + [last];
      }
    }
  }

  lemma {:induction false} InsertSortedKeepsOrder(s: seq<nat>, x: nat)
    requires Ascending(s)
    ensures Ascending(InsertSorted(s, x))
  {
    if s != [] && s[|s| - 1] > x {
      var rest, last := s[..|s| - 1], s[|s| - 1];
      InsertSortedKeepsOrder(rest, x);
      InsertSortedContents(rest, x);
      var r := InsertSorted(rest, x);
      forall i | 0 <= i < |r| ensures r[i] <= last {
        assert r[i] in multiset(r);
      }
    }
  }

  lemma CountsAppend(s: seq<nat>, x: nat, v: nat)
    ensures AtMost(s + [x], v) == AtMost(s, v) + if x <= v then 1 else 0
    ensures Below(s + [x], v) == Below(s, v) + if x < v then 1 else 0
  {
    assert (s + [x])[..|s|] == s;
  }

  lemma {:induction false} InsertSortedCounts(s: seq<nat>, x: nat, v: nat)
    ensures AtMost(InsertSorted(s, x), v) == AtMost(s, v) + if x <= v then 1 else 0
    ensures Below(InsertSorted(s, x), v) == Below(s, v) + if x < v then 1 else 0
  {
    CountsAppend(s, x, v);
    if s == [] {
      assert [] + [x] == [x];
    } else if s[|s| - 1] > x {
      var rest, last := s[..|s| - 1], s[|s| - 1];
      InsertSortedCounts(rest, x, v);
      CountsAppend(InsertSorted(rest, x), last, v);
      CountsAppend(rest, last, v);
    }
  }

  lemma {:induction false} SortedIsAPermutation(s: seq<nat>)
    ensures Ascending(Sorted(s)) && |Sorted(s)| == |s| && multiset(Sorted(s)) == multiset(s)
  {
    if s != [] {
      SortedIsAPermutation(s[..|s| - 1]);
      InsertSortedKeepsOrder(Sorted(s[..|s| - 1]), s[|s| - 1]);
      InsertSortedContents(Sorted(s[..|s| - 1]), s[|s| - 1]);
      assert s == s[..|s| - 1] + [s[|s| - 1]];
    }
  }

  lemma {:induction false} SortedCounts(s: seq<nat>, v: nat)
    ensures AtMost(Sorted(s), v) == AtMost(s, v) && Below(Sorted(s), v) == Below(s, v)
  {
    if s != [] {
      SortedCounts(s[..|s| - 1], v);
      InsertSortedCounts(Sorted(s[..|s| - 1]), s[|s| - 1], v);
    }
  }

  lemma {:induction false} AllAtMost(s: seq<nat>, v: nat)
    requires forall i :: 0 <= i < |s| ==> s[i] <= v
    ensures AtMost(s, v) == |s|
  {
    if s != [] {
      AllAtMost(s[..|s| - 1], v);
    }
  }

  lemma {:induction false} BelowBound(s: seq<nat>, v: nat)
    ensures Below(s, v) <= |s|
  {
    if s != [] {
      BelowBound(s[..|s| - 1], v);
    }
  }

  function IndicesAtMost(s: seq<nat>, v: nat): set<nat> {
    set i: nat | i < |s| && s[i] <= v
  }

  function IndicesBelow(s: seq<nat>, v: nat): set<nat> {
    set i: nat | i < |s| && s[i] < v
  }

  /** AtMost and Below count indices. */
  lemma {:induction false} AtMostCounts(s: seq<nat>, v: nat)
    ensures AtMost(s, v) == |IndicesAtMost(s, v)|
  {
    if s != [] {
      var n := |s| - 1;
      AtMostCounts(s[..n], v);
      assert IndicesAtMost(s, v) == IndicesAtMost(s[..n], v) + if s[n] <= v then {n} else {};
    }
  }

  lemma {:induction false} BelowCounts(s: seq<nat>, v: nat)
    ensures Below(s, v) == |IndicesBelow(s, v)|
  {
    if s != [] {
      var n := |s| - 1;
      BelowCounts(s[..n], v);
      assert IndicesBelow(s, v) == IndicesBelow(s[..n], v) + if s[n] < v then {n} else {};
    }
  }

  /** In an ascending sequence, at most `k` values lie below the one at index `k`, and at least `k + 1` do not exceed
      it. */
  lemma {:induction false} RankInAscending(s: seq<nat>, k: nat)
    requires Ascending(s) && k < |s|
    ensures Below(s, s[k]) <= k < AtMost(s, s[k])
  {
    var n := |s| - 1;
    if k == n {
      AllAtMost(s, s[k]);
      BelowBound(s[..n], s[k]);
    } else {
      RankInAscending(s[..n], k);
    }
  }

  /** `v` is a nearest-rank `percent` percentile of `s`. */
  ghost predicate IsNearestRank(s: seq<nat>, percent: nat, v: nat) {
    && v in s
    && 100 * AtMost(s, v) >= percent * |s|
    && 100 * Below(s, v) < percent * |s|
  }

  lemma OffsetInRange(count: nat, percent: nat)
    requires count > 0 && 1 <= percent <= 100
    ensures 0 <= NearestRankOffset(count, percent) < count
    ensures 100 * NearestRankOffset(count, percent) < percent * count <= 100 * (NearestRankOffset(count, percent) + 1)
  {
    var product := percent * count;
    assert 1 <= product <= 100 * count;
  }

  function Percentile(s: seq<nat>, percent: nat): nat
    requires s != [] && 1 <= percent <= 100
  {
    var offset := NearestRankOffset(|s|, percent);
    SortedIsAPermutation(s);
    OffsetInRange(|s|, percent);
    Sorted(s)[offset]
  }

  lemma {:induction false} LargerValueHasMoreBelow(s: seq<nat>, v: nat, w: nat)
    requires v < w
    ensures AtMost(s, v) <= Below(s, w)
  {
    if s != [] {
      LargerValueHasMoreBelow(s[..|s| - 1], v, w);
    }
  }

  lemma NearestRanksAreOrdered(s: seq<nat>, p: nat, q: nat, v: nat, w: nat)
    requires p <= q && IsNearestRank(s, p, v) && IsNearestRank(s, q, w)
    ensures v <= w
  {
    assert p * |s| <= q * |s|;
    if w < v {
      LargerValueHasMoreBelow(s, w, v);
    }
  }

  /** The reported percentile is the one and only stored duration that is a nearest-rank percentile. */
  lemma PercentileIsNearestRank(s: seq<nat>, percent: nat, v: nat)
    requires s != [] && 1 <= percent <= 100
    ensures Percentile(s, percent) == v <==> IsNearestRank(s, percent, v)
  {
    var offset := NearestRankOffset(|s|, percent);
    var found := Percentile(s, percent);
    SortedIsAPermutation(s);
    OffsetInRange(|s|, percent);
    RankInAscending(Sorted(s), offset);
    SortedCounts(s, found);
    assert found in multiset(Sorted(s));
    assert IsNearestRank(s, percent, found);
    if IsNearestRank(s, percent, v) {
      NearestRanksAreOrdered(s, percent, percent, found, v);
      NearestRanksAreOrdered(s, percent, percent, v, found);
    }
  }

  ghost predicate IsMaximum(s: seq<nat>, m: nat) {
    m in s && forall x :: x in s ==> x <= m
  }

  lemma PercentilesAreOrdered(s: seq<nat>, m: nat)
    requires IsMaximum(s, m)
    ensures Percentile(s, 50) <= Percentile(s, 95) <= Percentile(s, 99) <= m
  {
    var a, b, c := Percentile(s, 50), Percentile(s, 95), Percentile(s, 99);
    PercentileIsNearestRank(s, 50, a);
    PercentileIsNearestRank(s, 95, b);
    PercentileIsNearestRank(s, 99, c);
    NearestRanksAreOrdered(s, 50, 95, a, b);
    NearestRanksAreOrdered(s, 95, 99, b, c);
  }

  function CountOutcome(rows: seq<TaskRecord>, outcome: nat): nat {
    if rows == [] then 0
    else CountOutcome(rows[..|rows| - 1], outcome) + if rows[|rows| - 1].outcome == outcome then 1 else 0
  }

  function IndicesWith(rows: seq<TaskRecord>, outcome: nat): set<nat> {
    set i: nat | i < |rows| && rows[i].outcome == outcome
  }

  lemma {:induction false} OutcomesAreCounted(rows: seq<TaskRecord>, outcome: nat)
    ensures CountOutcome(rows, outcome) == |IndicesWith(rows, outcome)|
  {
    if rows != [] {
      var n := |rows| - 1;
      OutcomesAreCounted(rows[..n], outcome);
      assert IndicesWith(rows, outcome)
             == IndicesWith(rows[..n], outcome) + if rows[n].outcome == outcome then {n} else {};
    }
  }

  class Store {
    var rows: seq<TaskRecord>

    ghost predicate Valid()
      reads this
    {
      OneRowPerTask(rows)
    }

    constructor ()
      ensures Valid() && rows == []
    {
      rows := [];
    }

    method Insert(r: TaskRecord, databaseOk: bool) returns (ok: bool)
      requires Valid()
      modifies this
      ensures Valid() && (rows, ok) == Inserted(old(rows), r, databaseOk)
    {
      FirstWriteStays(rows, [Attempt(r, databaseOk)], r.taskId);
      assert [Attempt(r, databaseOk)][..0] == [];
      if r.durationMs > INT64_MAX || !databaseOk {
        return false;
      }
      var existing := Find(rows, r.taskId);
      if existing == None {
        rows := rows + [r];
        return true;
      }
      return Same(existing.value, r);
    }

    /** Counts only the four known outcomes; the percentiles are stored durations, in order, below the maximum. */
    method Stats() returns (stats: RuntimeStats)
      ensures rows == [] ==> stats == RuntimeStats(false, 0, [0, 0, 0, 0], 0, 0, 0, 0)
      ensures rows != [] ==>
                && stats.hasData && stats.sampleCount == |rows|
                && |stats.outcomeCounts| == 4
                && (forall o :: 0 <= o < 4 ==> stats.outcomeCounts[o] == CountOutcome(rows, o))
                && IsMaximum(Durations(rows), stats.maxMs)
                && IsNearestRank(Durations(rows), 50, stats.p50Ms)
                && IsNearestRank(Durations(rows), 95, stats.p95Ms)
                && IsNearestRank(Durations(rows), 99, stats.p99Ms)
                && stats.p50Ms <= stats.p95Ms <= stats.p99Ms <= stats.maxMs
    {
      if rows == [] {
        return RuntimeStats(false, 0, [0, 0, 0, 0], 0, 0, 0, 0);
      }
      var s := Durations(rows);
      var counts := [0, 0, 0, 0];
      var max := s[0];
      var i := 0;
      while i < |rows|
        invariant 0 <= i <= |rows| && |counts| == 4
        invariant forall o :: 0 <= o < 4 ==> counts[o] == CountOutcome(rows[..i], o)
        invariant max in s && forall k :: 0 <= k < i ==> s[k] <= max
      {
        assert rows[..i + 1][..i] == rows[..i];
        var outcome := rows[i].outcome;
        if outcome < |counts| {
          counts := counts[outcome := counts[outcome] + 1];
        }
        if max < s[i] {
          max := s[i];
        }
        i := i + 1;
      }
      assert rows[..i] == rows;
      PercentileIsNearestRank(s, 50, Percentile(s, 50));
      PercentileIsNearestRank(s, 95, Percentile(s, 95));
      PercentileIsNearestRank(s, 99, Percentile(s, 99));
      PercentilesAreOrdered(s, max);
      return RuntimeStats(true, |rows|, counts, Percentile(s, 50), Percentile(s, 95), Percentile(s, 99), max);
    }
  }
}
