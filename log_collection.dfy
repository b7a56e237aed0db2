/** A task's sparse, date-keyed log: lookup, the +/- delta protocol of
    `handleUpdateLog`, and the per-period filters and counts that every
    statistics view is built from. */
module LogCollection {
  import opened Dates
  import opened Types
  import opened Arith

  /** No two entries share a date. */
  predicate UniqueDates(logs: seq<DailyLog>) {
    forall i, j :: 0 <= i < j < |logs| ==> logs[i].date != logs[j].date
  }

  /** Every stored entry has a count of at least one. */
  predicate PositiveCounts(logs: seq<DailyLog>) {
    forall i :: 0 <= i < |logs| ==> logs[i].count >= 1
  }

  /** The collection invariant: dates unique, counts at least one. */
  predicate ValidLogs(logs: seq<DailyLog>) {
    UniqueDates(logs) && PositiveCounts(logs)
  }

  // ---------------------------------------------------------------------
  // Lookup

  /** `logs.findIndex(l => l.date === date)`: the first entry for `date`, or -1. */
  function IndexOf(logs: seq<DailyLog>, date: Date): (r: int)
    ensures -1 <= r < |logs|
    ensures 0 <= r ==> logs[r].date == date
    ensures forall j :: 0 <= j < |logs| && (r < 0 || j < r) ==> logs[j].date != date
  {
    if |logs| == 0 then -1
    else if logs[0].date == date then 0
    else
      var k := IndexOf(logs[1..], date);
      if k < 0 then -1 else k + 1
  }

  /** `log ? log.count : 0` for the first entry of `date`. */
  function CountOf(logs: seq<DailyLog>, date: Date): (r: nat)
    ensures r > 0 ==> exists i :: 0 <= i < |logs| && logs[i].date == date && logs[i].count == r
  {
    var i := IndexOf(logs, date);
    if i < 0 then 0 else logs[i].count
  }

  lemma CountOfAt(logs: seq<DailyLog>, i: nat)
    requires UniqueDates(logs) && i < |logs|
    ensures CountOf(logs, logs[i].date) == logs[i].count
  {
  }

  lemma CountOfAbsent(logs: seq<DailyLog>, date: Date)
    requires forall j :: 0 <= j < |logs| ==> logs[j].date != date
    ensures CountOf(logs, date) == 0
  {
  }

  // ---------------------------------------------------------------------
  // The delta protocol

  /** The new log of `handleUpdateLog(date, delta)` for one task: an existing
      entry's count becomes max(0, count + delta), and the entry is spliced
      out when that is 0; an absent date gets an entry `{date, delta}`
      pushed at the end only when delta > 0. */
  function ApplyDelta(logs: seq<DailyLog>, date: Date, delta: int): (r: seq<DailyLog>)
    ensures forall l :: l in logs && l.date != date ==> l in r
    ensures forall l :: l in r && l.date != date ==> l in logs
    ensures IndexOf(logs, date) < 0 && delta <= 0 ==> r == logs
  {
    var i := IndexOf(logs, date);
    if i >= 0 then
      var newCount := Max(0, logs[i].count + delta);
      if newCount == 0 then logs[..i] + logs[i + 1..]
      else
        var r := logs[i := logs[i].(count := newCount)];
        assert forall k :: 0 <= k < |r| && k != i ==> r[k] == logs[k];
        assert r[i].date == date;
        r
    else if delta > 0 then logs + [DailyLog(date, delta)]
    else logs
  }

  /** The collection invariant survives every delta: no zero entries and no
      duplicate dates are ever produced. */
  lemma {:induction false} ApplyDeltaPreservesValid(logs: seq<DailyLog>, date: Date, delta: int)
    requires ValidLogs(logs)
    ensures ValidLogs(ApplyDelta(logs, date, delta))
  {
    var i := IndexOf(logs, date);
    if i >= 0 {
      var newCount := Max(0, logs[i].count + delta);
      if newCount == 0 {
        assert ApplyDelta(logs, date, delta) == logs[..i] + logs[i + 1..];
        RemoveAtValid(logs, i);
      } else {
        assert ApplyDelta(logs, date, delta) == logs[i := logs[i].(count := newCount)];
        UpdateAtValid(logs, i, newCount);
      }
    } else if delta > 0 {
      assert ApplyDelta(logs, date, delta) == logs + [DailyLog(date, delta)];
      AppendValid(logs, DailyLog(date, delta));
    }
  }

  lemma UpdateAtValid(logs: seq<DailyLog>, i: nat, c: nat)
    requires ValidLogs(logs) && i < |logs| && c >= 1
    ensures ValidLogs(logs[i := logs[i].(count := c)])
  {
  }

  lemma AppendValid(logs: seq<DailyLog>, e: DailyLog)
    requires ValidLogs(logs) && IndexOf(logs, e.date) < 0 && e.count >= 1
    ensures ValidLogs(logs + [e])
  {
  }

  lemma RemoveAtValid(logs: seq<DailyLog>, i: nat)
    requires ValidLogs(logs) && i < |logs|
    ensures ValidLogs(logs[..i] + logs[i + 1..])
  {
    var r := logs[..i] + logs[i + 1..];
    assert forall k :: 0 <= k < |r| ==> r[k] == (if k < i then logs[k] else logs[k + 1]);
  }

  /** Splicing out entry i leaves every other entry's count readable. */
  lemma RemoveAtCount(logs: seq<DailyLog>, i: nat, d: Date)
    requires UniqueDates(logs) && i < |logs|
    ensures CountOf(logs[..i] + logs[i + 1..], d) == if d == logs[i].date then 0 else CountOf(logs, d)
  {
    var r := logs[..i] + logs[i + 1..];
    assert forall m :: 0 <= m < |r| ==> r[m] == (if m < i then logs[m] else logs[m + 1]);
    assert UniqueDates(r);
    var k := IndexOf(logs, d);
    if d == logs[i].date || k < 0 {
      CountOfAbsent(r, d);
    } else {
      var m := if k < i then k else k - 1;
      assert r[m] == logs[k];
      CountOfAt(r, m);
    }
  }

  /** Overwriting the count of entry i changes only that date's count. */
  lemma UpdateAtCount(logs: seq<DailyLog>, i: nat, c: nat, d: Date)
    requires UniqueDates(logs) && i < |logs|
    ensures CountOf(logs[i := logs[i].(count := c)], d) == if d == logs[i].date then c else CountOf(logs, d)
  {
    var r := logs[i := logs[i].(count := c)];
    assert forall m :: 0 <= m < |r| ==> r[m].date == logs[m].date;
    assert UniqueDates(r);
    var k := IndexOf(logs, d);
    if k >= 0 {
      CountOfAt(r, k);
    } else {
      CountOfAbsent(r, d);
    }
  }

  /** Appending an entry for an absent date makes it readable. */
  lemma AppendCount(logs: seq<DailyLog>, e: DailyLog, d: Date)
    requires UniqueDates(logs) && IndexOf(logs, e.date) < 0
    ensures CountOf(logs + [e], d) == if d == e.date then e.count else CountOf(logs, d)
  {
    var r := logs + [e];
    assert UniqueDates(r);
    var k := IndexOf(logs, d);
    if d == e.date {
      CountOfAt(r, |logs|);
    } else if k >= 0 {
      CountOfAt(r, k);
    } else {
      CountOfAbsent(r, d);
    }
  }

  /** Viewed as a map from dates to counts, a delta changes only the count of
      its own date, to max(0, old + delta); absent dates read as 0. */
  lemma {:induction false} ApplyDeltaCount(logs: seq<DailyLog>, date: Date, delta: int, d: Date)
    requires UniqueDates(logs)
    ensures CountOf(ApplyDelta(logs, date, delta), d)
         == if d == date then Max(0, CountOf(logs, d) + delta) else CountOf(logs, d)
  {
    var i := IndexOf(logs, date);
    if i >= 0 {
      var newCount := Max(0, logs[i].count + delta);
      if newCount == 0 {
        RemoveAtCount(logs, i, d);
      } else {
        UpdateAtCount(logs, i, newCount, d);
      }
    } else if delta > 0 {
      AppendCount(logs, DailyLog(date, delta), d);
    }
  }

  /** Where the change lands: a surviving entry is updated at its own
      position, a removed one shortens the log by one, and a new entry is
      the last one. */
  lemma ApplyDeltaPlacement(logs: seq<DailyLog>, date: Date, delta: int)
    ensures var i := IndexOf(logs, date);
            var r := ApplyDelta(logs, date, delta);
            (i >= 0 && logs[i].count + delta > 0 ==>
               |r| == |logs| && IndexOf(r, date) == i && r[i].count == logs[i].count + delta)
            && (i >= 0 && logs[i].count + delta <= 0 ==>
               |r| == |logs| - 1 && r == logs[..i] + logs[i + 1..])
            && (i < 0 && delta > 0 ==>
               |r| == |logs| + 1 && r[|logs|] == DailyLog(date, delta) && r[..|logs|] == logs)
  {
    var i := IndexOf(logs, date);
    var r := ApplyDelta(logs, date, delta);
    if i >= 0 && logs[i].count + delta > 0 {
      assert r == logs[i := logs[i].(count := logs[i].count + delta)];
      assert forall j :: 0 <= j < i ==> r[j] == logs[j];
    } else if i < 0 && delta > 0 {
      assert r == logs + [DailyLog(date, delta)];
    }
  }

  /** Pressing +1 and then -1 on a date without an entry leaves the log
      exactly as it was: no stray zero entry remains. */
  lemma {:induction false} PlusThenMinusRestores(logs: seq<DailyLog>, date: Date)
    requires IndexOf(logs, date) < 0
    ensures ApplyDelta(ApplyDelta(logs, date, 1), date, -1) == logs
  {
    var once := ApplyDelta(logs, date, 1);
    assert once == logs + [DailyLog(date, 1)];
    assert once[|logs|].date == date;
    assert IndexOf(once, date) == |logs|;
    assert once[..|logs|] == logs;
  }

  /** The delta sequence +1, +1, -1 on an empty date leaves exactly one
      entry for it, with count 1. */
  lemma {:induction false} PlusPlusMinusLeavesOne(logs: seq<DailyLog>, date: Date)
    requires ValidLogs(logs) && CountOf(logs, date) == 0
    ensures var r := ApplyDelta(ApplyDelta(ApplyDelta(logs, date, 1), date, 1), date, -1);
      CountOf(r, date) == 1 && ValidLogs(r)
  {
    var a := ApplyDelta(logs, date, 1);
    var b := ApplyDelta(a, date, 1);
    ApplyDeltaPreservesValid(logs, date, 1);
    ApplyDeltaPreservesValid(a, date, 1);
    ApplyDeltaPreservesValid(b, date, -1);
    ApplyDeltaCount(logs, date, 1, date);
    ApplyDeltaCount(a, date, 1, date);
    ApplyDeltaCount(b, date, -1, date);
  }

  // ---------------------------------------------------------------------
  // Period filters and counts (`filter` / `reduce` over a task's logs)

  /** `logs.filter(l => l.date.startsWith(prefix))`, order kept. */
  function PeriodLogs(logs: seq<DailyLog>, prefix: string): (r: seq<DailyLog>)
    ensures |r| <= |logs|
  {
    if logs == [] then []
    else
      var init := PeriodLogs(logs[..|logs| - 1], prefix);
      var last := logs[|logs| - 1];
      if StartsWith(Key(last.date), prefix) then init + [last] else init
  }

  /** The filter keeps exactly the entries whose key has the prefix. */
  lemma {:induction false} PeriodLogsMembers(logs: seq<DailyLog>, prefix: string)
    ensures forall l :: l in PeriodLogs(logs, prefix) <==> l in logs && StartsWith(Key(l.date), prefix)
  {
    if logs != [] {
      var init := logs[..|logs| - 1];
      PeriodLogsMembers(init, prefix);
      assert logs == init + [logs[|logs| - 1]];
    }
  }

  /** Filtering keeps dates unique. */
  lemma {:induction false} PeriodLogsUnique(logs: seq<DailyLog>, prefix: string)
    requires UniqueDates(logs)
    ensures UniqueDates(PeriodLogs(logs, prefix))
  {
    if logs != [] {
      var init := logs[..|logs| - 1];
      var last := logs[|logs| - 1];
      assert UniqueDates(init);
      PeriodLogsUnique(init, prefix);
      PeriodLogsMembers(init, prefix);
      var f := PeriodLogs(init, prefix);
      forall i | 0 <= i < |f|
        ensures f[i].date != last.date
      {
        assert f[i] in init;
        var j :| 0 <= j < |init| && init[j] == f[i];
        assert logs[j] == f[i];
      }
      UniqueSnoc(f, last);
    }
  }

  /** Appending an entry whose date is new keeps the dates distinct. */
  lemma UniqueSnoc(logs: seq<DailyLog>, l: DailyLog)
    requires UniqueDates(logs)
    requires forall i :: 0 <= i < |logs| ==> logs[i].date != l.date
    ensures UniqueDates(logs + [l])
  {
  }

  /** The filter distributes over concatenation, so the kept entries stay
      in log order. */
  lemma {:induction false} PeriodLogsAppend(a: seq<DailyLog>, b: seq<DailyLog>, prefix: string)
    ensures PeriodLogs(a + b, prefix) == PeriodLogs(a, prefix) + PeriodLogs(b, prefix)
  {
    if b == [] {
      assert a + b == a;
    } else {
      var init, last := b[..|b| - 1], b[|b| - 1];
      assert b == init + [last];
      assert a + b == (a + init) + [last];
      PeriodLogsAppend(a, init, prefix);
      var kept := PeriodLogsSnoc(a + init, last, prefix);
      var kept' := PeriodLogsSnoc(init, last, prefix);
      assert (PeriodLogs(a, prefix) + PeriodLogs(init, prefix)) + kept ==
             PeriodLogs(a, prefix) + (PeriodLogs(init, prefix) + kept);
    }
  }

  /** Filtering a log with one more entry at its end keeps that entry or not. */
  lemma PeriodLogsSnoc(logs: seq<DailyLog>, l: DailyLog, prefix: string) returns (kept: seq<DailyLog>)
    ensures kept == (if StartsWith(Key(l.date), prefix) then [l] else [])
    ensures PeriodLogs(logs + [l], prefix) == PeriodLogs(logs, prefix) + kept
  {
    var s := logs + [l];
    assert s[..|s| - 1] == logs;
    kept := if StartsWith(Key(l.date), prefix) then [l] else [];
  }

  /** `logs.reduce((acc, l) => acc + l.count, 0)`. */
  function SumCounts(logs: seq<DailyLog>): nat {
    if logs == [] then 0 else SumCounts(logs[..|logs| - 1]) + logs[|logs| - 1].count
  }

  /** `logs.filter(l => l.count > 0).length`. */
  function ActiveCount(logs: seq<DailyLog>): nat {
    if logs == [] then 0
    else ActiveCount(logs[..|logs| - 1]) + (if logs[|logs| - 1].count > 0 then 1 else 0)
  }

  /** `logs.filter(l => l.count >= dailyGoal).length`. */
  function GoalMetCount(logs: seq<DailyLog>, dailyGoal: int): nat {
    if logs == [] then 0
    else GoalMetCount(logs[..|logs| - 1], dailyGoal) + (if logs[|logs| - 1].count >= dailyGoal then 1 else 0)
  }

  lemma {:induction false} SumCountsAppend(a: seq<DailyLog>, b: seq<DailyLog>)
    ensures SumCounts(a + b) == SumCounts(a) + SumCounts(b)
    decreases |b|
  {
    if b == [] {
      assert a + b == a;
    } else {
      assert (a + b)[..|a + b| - 1] == a + b[..|b| - 1];
      SumCountsAppend(a, b[..|b| - 1]);
    }
  }

  /** Active entries are among the entries. */
  lemma {:induction false} ActiveCountAtMostLength(logs: seq<DailyLog>)
    ensures ActiveCount(logs) <= |logs|
  {
    if logs != [] {
      ActiveCountAtMostLength(logs[..|logs| - 1]);
    }
  }

  /** With a goal of at least one, every goal-met day is an active day. */
  lemma {:induction false} GoalMetAtMostActive(logs: seq<DailyLog>, dailyGoal: int)
    requires dailyGoal >= 1
    ensures GoalMetCount(logs, dailyGoal) <= ActiveCount(logs)
  {
    if logs != [] {
      GoalMetAtMostActive(logs[..|logs| - 1], dailyGoal);
    }
  }

  /** In a valid collection every entry is active, so the active-day count is
      the number of entries. */
  lemma {:induction false} ActiveCountOfPositive(logs: seq<DailyLog>)
    requires PositiveCounts(logs)
    ensures ActiveCount(logs) == |logs|
  {
    if logs != [] {
      var init := logs[..|logs| - 1];
      assert PositiveCounts(init) by {
        forall i | 0 <= i < |init| ensures init[i].count >= 1 {
          assert init[i] == logs[i];
        }
      }
      ActiveCountOfPositive(init);
    }
  }

  /** Filtering by a zero-padded `YYYY-MM` prefix selects exactly the
      entries of that year and month. */
  lemma MonthFilterSelects(logs: seq<DailyLog>, y: nat, m: Month)
    requires forall l :: l in logs ==> l.date.month < 100
    ensures forall l :: l in PeriodLogs(logs, MonthPrefix(y, m))
                   <==> l in logs && l.date.year == y && l.date.month == m
  {
    PeriodLogsMembers(logs, MonthPrefix(y, m));
    forall l | l in logs {
      MonthPrefixMatch(l.date, y, m);
    }
  }

  /** Filtering by a `YYYY-` prefix selects exactly the entries of that year. */
  lemma YearFilterSelects(logs: seq<DailyLog>, y: nat)
    ensures forall l :: l in PeriodLogs(logs, YearPrefix(y)) <==> l in logs && l.date.year == y
  {
    PeriodLogsMembers(logs, YearPrefix(y));
    forall l | l in logs {
      YearPrefixMatch(l.date, y);
    }
  }
}
