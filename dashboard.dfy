/** The integrated dashboard: multi-task totals for a month or a year, the
    distinct active days, progress, the weekly/monthly bar buckets, the
    daily trend and the period navigation. */
module Dashboard {
  import opened Wrappers
  import opened Arith
  import opened Dates
  import opened Types
  import opened LogCollection
  import opened Goals
  import opened Seqs

  datatype ViewType = Monthly | Yearly

  /** `${year}-${pad2(month)}` in the monthly view, `${year}-` in the yearly one. */
  function FilterPrefix(view: ViewType, year: nat, month: Month): string {
    if view == Monthly then MonthPrefix(year, month) else YearPrefix(year)
  }

  /** Days in the period shown: the month length or the year length. */
  function PeriodDays(view: ViewType, year: nat, month: Month): nat {
    if view == Monthly then DaysInMonth(year, month) else DaysInYear(year)
  }

  /** A task's goal for the period: four weeks a month, fifty-two a year. */
  function TaskPeriodGoal(task: Task, view: ViewType): int {
    if view == Monthly then MonthlyGoal(task.dailyGoal, task.weeklyDays)
    else YearlyGoal(task.dailyGoal, task.weeklyDays)
  }

  /** Units a task logged in the period. */
  function TaskDone(task: Task, prefix: string): nat {
    SumCounts(PeriodLogs(task.logs, prefix))
  }

  // ---------------------------------------------------------------------
  // Specification of the totals (sums over the task list)

  function TotalDone(tasks: seq<Task>, prefix: string): nat {
    if tasks == [] then 0
    else TotalDone(tasks[..|tasks| - 1], prefix) + TaskDone(tasks[|tasks| - 1], prefix)
  }

  function TotalGoal(tasks: seq<Task>, view: ViewType): int {
    if tasks == [] then 0
    else TotalGoal(tasks[..|tasks| - 1], view) + TaskPeriodGoal(tasks[|tasks| - 1], view)
  }

  /** Sum over tasks of each task's own active-day count in the period. */
  function SumActiveDays(tasks: seq<Task>, prefix: string): nat {
    if tasks == [] then 0
    else SumActiveDays(tasks[..|tasks| - 1], prefix) + ActiveCount(PeriodLogs(tasks[|tasks| - 1].logs, prefix))
  }

  /** Date keys of the entries with a positive count. */
  function ActiveKeysOf(logs: seq<DailyLog>): set<string> {
    if logs == [] then {}
    else
      var last := logs[|logs| - 1];
      ActiveKeysOf(logs[..|logs| - 1]) + (if last.count > 0 then {Key(last.date)} else {})
  }

  /** The `activeDaysSet`: every date key in the period with a positive
      count in some task. */
  function ActiveKeys(tasks: seq<Task>, prefix: string): set<string> {
    if tasks == [] then {}
    else ActiveKeys(tasks[..|tasks| - 1], prefix) + ActiveKeysOf(PeriodLogs(tasks[|tasks| - 1].logs, prefix))
  }

  datatype TaskPerformance = TaskPerformance(name: string, done: nat, goal: int)

  function Performance(task: Task, prefix: string, view: ViewType): TaskPerformance {
    TaskPerformance(task.name, TaskDone(task, prefix), TaskPeriodGoal(task, view))
  }

  /** One performance entry per task, in task order. */
  function PerformanceList(tasks: seq<Task>, prefix: string, view: ViewType): seq<TaskPerformance> {
    MapSeq(t => Performance(t, prefix, view), tasks)
  }

  /** What one more task adds to each running total of the aggregation loop. */
  lemma AccumulateStep(tasks: seq<Task>, k: nat, prefix: string, view: ViewType)
    requires k < |tasks|
    ensures TotalDone(tasks[..k + 1], prefix) == TotalDone(tasks[..k], prefix) + TaskDone(tasks[k], prefix)
    ensures TotalGoal(tasks[..k + 1], view) == TotalGoal(tasks[..k], view) + TaskPeriodGoal(tasks[k], view)
    ensures ActiveKeys(tasks[..k + 1], prefix) == ActiveKeys(tasks[..k], prefix) + ActiveKeysOf(PeriodLogs(tasks[k].logs, prefix))
    ensures PerformanceList(tasks[..k + 1], prefix, view)
            == PerformanceList(tasks[..k], prefix, view) + [Performance(tasks[k], prefix, view)]
  {
    assert tasks[..k + 1][..k] == tasks[..k] && tasks[..k + 1][k] == tasks[k];
  }

  datatype Summary = Summary(
    totalDone: nat,
    totalGoal: int,
    activeDays: nat,
    remainingGoal: nat,
    totalPeriodDays: nat,
    avgDailyDone: real,
    progress: real,
    perTask: seq<TaskPerformance>)

  /** The loop of the aggregation block: per task, its period logs are
      summed, its period goal is added, its active dates join the set and
      its performance entry is appended. */
  method Accumulate(tasks: seq<Task>, view: ViewType, prefix: string)
    returns (totalDone: nat, totalGoal: int, activeDaysSet: set<string>, taskPerformance: seq<TaskPerformance>)
    ensures totalDone == TotalDone(tasks, prefix)
    ensures totalGoal == TotalGoal(tasks, view)
    ensures activeDaysSet == ActiveKeys(tasks, prefix)
    ensures taskPerformance == PerformanceList(tasks, prefix, view)
  {
    totalDone, totalGoal, activeDaysSet, taskPerformance := 0, 0, {}, [];
    var k := 0;
    while k < |tasks|
      invariant 0 <= k <= |tasks|
      invariant totalDone == TotalDone(tasks[..k], prefix)
      invariant totalGoal == TotalGoal(tasks[..k], view)
      invariant activeDaysSet == ActiveKeys(tasks[..k], prefix)
      invariant taskPerformance == PerformanceList(tasks[..k], prefix, view)
    {
      var task := tasks[k];
      AccumulateStep(tasks, k, prefix, view);
      var logsInPeriod := PeriodLogs(task.logs, prefix);
      var taskDone := SumCounts(logsInPeriod);
      var taskPeriodGoal := TaskPeriodGoal(task, view);
      totalDone := totalDone + taskDone;
      totalGoal := totalGoal + taskPeriodGoal;
      activeDaysSet := AddActiveKeys(activeDaysSet, logsInPeriod);
      taskPerformance := taskPerformance + [TaskPerformance(task.name, taskDone, taskPeriodGoal)];
      k := k + 1;
    }
    assert tasks[..k] == tasks;
  }

  /** The inner loop: the key of every entry with a positive count joins
      the set. */
  method AddActiveKeys(acc: set<string>, logs: seq<DailyLog>) returns (r: set<string>)
    ensures r == acc + ActiveKeysOf(logs)
  {
    r := acc;
    var j := 0;
    while j < |logs|
      invariant 0 <= j <= |logs|
      invariant r == acc + ActiveKeysOf(logs[..j])
    {
      assert logs[..j + 1][..j] == logs[..j] && logs[..j + 1][j] == logs[j];
      if logs[j].count > 0 {
        r := r + {Key(logs[j].date)};
      }
      j := j + 1;
    }
    assert logs[..j] == logs;
  }

  /** Units per active day, 0 without active days. */
  function AverageDaily(totalDone: nat, activeDays: nat): (a: real)
    ensures activeDays == 0 ==> a == 0.0
    ensures activeDays > 0 ==> a * (activeDays as real) == totalDone as real
  {
    if activeDays > 0 then (totalDone as real) / (activeDays as real) else 0.0
  }

  lemma ProgressFacts(done: nat, goal: int)
    requires goal > 0
    ensures var p := MinReal(100.0, (done as real) / (goal as real) * 100.0);
      0.0 <= p <= 100.0
      && (p == 100.0 <==> done >= goal)
      && (done < goal ==> p * (goal as real) == 100.0 * (done as real))
  {
    var q := (done as real) / (goal as real);
    assert q * (goal as real) == done as real;
    if done < goal {
      assert q < 1.0;
    } else {
      assert q >= 1.0;
    }
  }

  /** `min(100, done / goal * 100)` for a positive goal, 0 otherwise: a
      percentage that reaches 100 exactly when the goal is met. */
  function ProgressPercent(totalDone: nat, totalGoal: int): (p: real)
    ensures 0.0 <= p <= 100.0
    ensures totalGoal <= 0 ==> p == 0.0
    ensures totalGoal > 0 ==> (p == 100.0 <==> totalDone >= totalGoal)
    ensures totalGoal > 0 && totalDone < totalGoal ==> p * (totalGoal as real) == 100.0 * (totalDone as real)
  {
    if totalGoal > 0 then
      ProgressFacts(totalDone, totalGoal);
      MinReal(100.0, (totalDone as real) / (totalGoal as real) * 100.0)
    else 0.0
  }

  /** The aggregation block of the dashboard for one period. */
  method Aggregate(tasks: seq<Task>, view: ViewType, year: nat, month: Month) returns (s: Summary)
    ensures s.totalDone == TotalDone(tasks, FilterPrefix(view, year, month))
    ensures s.totalGoal == TotalGoal(tasks, view)
    ensures s.activeDays == |ActiveKeys(tasks, FilterPrefix(view, year, month))|
    ensures s.activeDays <= SumActiveDays(tasks, FilterPrefix(view, year, month))
    ensures |s.perTask| == |tasks|
    ensures forall i :: 0 <= i < |tasks| ==> s.perTask[i] == Performance(tasks[i], FilterPrefix(view, year, month), view)
    ensures s.remainingGoal == RemainingGoal(s.totalGoal, s.totalDone)
    ensures s.totalPeriodDays == PeriodDays(view, year, month)
    ensures s.progress == ProgressPercent(s.totalDone, s.totalGoal)
    ensures s.avgDailyDone == AverageDaily(s.totalDone, s.activeDays)
  {
    var prefix := FilterPrefix(view, year, month);
    var totalDone, totalGoal, activeDaysSet, taskPerformance := Accumulate(tasks, view, prefix);
    MapSeqAt(t => Performance(t, prefix, view), tasks);
    ActiveDaysAtMostSum(tasks, prefix);
    var activeDaysCount := |activeDaysSet|;
    var totalPeriodDays := if view == Monthly then DaysInMonth(year, month) else DaysInYear(year);
    s := Summary(totalDone, totalGoal, activeDaysCount, RemainingGoal(totalGoal, totalDone), totalPeriodDays,
                 AverageDaily(totalDone, activeDaysCount), ProgressPercent(totalDone, totalGoal), taskPerformance);
  }

  // ---------------------------------------------------------------------
  // Distinct active days

  lemma {:induction false} ActiveKeysOfBound(logs: seq<DailyLog>)
    ensures |ActiveKeysOf(logs)| <= ActiveCount(logs)
  {
    if logs != [] {
      ActiveKeysOfBound(logs[..|logs| - 1]);
    }
  }

  /** Every active key comes from a positive entry. */
  lemma {:induction false} ActiveKeysOfMembers(logs: seq<DailyLog>, k: string)
    requires k in ActiveKeysOf(logs)
    ensures exists i :: 0 <= i < |logs| && logs[i].count > 0 && Key(logs[i].date) == k
  {
    var init := logs[..|logs| - 1];
    if k in ActiveKeysOf(init) {
      ActiveKeysOfMembers(init, k);
      var i :| 0 <= i < |init| && init[i].count > 0 && Key(init[i].date) == k;
      assert logs[i] == init[i];
    }
  }

  /** With unique dates, a task's distinct active keys are exactly as many
      as its active entries: counting dates and counting entries agree. */
  lemma {:induction false} ActiveKeysOfExact(logs: seq<DailyLog>)
    requires UniqueDates(logs)
    ensures |ActiveKeysOf(logs)| == ActiveCount(logs)
  {
    if logs != [] {
      var init := logs[..|logs| - 1];
      var last := logs[|logs| - 1];
      assert UniqueDates(init) by {
        forall i, j | 0 <= i < j < |init| ensures init[i].date != init[j].date {
          assert init[i] == logs[i] && init[j] == logs[j];
        }
      }
      ActiveKeysOfExact(init);
      if last.count > 0 && Key(last.date) in ActiveKeysOf(init) {
        ActiveKeysOfMembers(init, Key(last.date));
        var i :| 0 <= i < |init| && init[i].count > 0 && Key(init[i].date) == Key(last.date);
        KeyInjective(init[i].date, last.date);
        assert false;
      }
    }
  }

  /** Counting each date once across tasks never exceeds adding up each
      task's own active days (the set is a union, not a sum). */
  lemma {:induction false} ActiveDaysAtMostSum(tasks: seq<Task>, prefix: string)
    ensures |ActiveKeys(tasks, prefix)| <= SumActiveDays(tasks, prefix)
  {
    if tasks != [] {
      ActiveDaysAtMostSum(tasks[..|tasks| - 1], prefix);
      ActiveKeysOfBound(PeriodLogs(tasks[|tasks| - 1].logs, prefix));
    }
  }

  /** Keys of days 1..n of month m of year y. */
  function MonthKeys(y: nat, m: nat, n: nat): set<string> {
    if n == 0 then {} else MonthKeys(y, m, n - 1) + {Key(Date(y, m, n))}
  }

  /** Keys of every day of months 1..n of year y. */
  function YearKeys(y: nat, n: nat): set<string> {
    if n == 0 then {} else YearKeys(y, n - 1) + MonthKeys(y, n, DaysInMonth(y, n))
  }

  lemma {:induction false} MonthKeysCard(y: nat, m: nat, n: nat)
    ensures |MonthKeys(y, m, n)| <= n
  {
    if n > 0 {
      MonthKeysCard(y, m, n - 1);
    }
  }

  lemma {:induction false} YearKeysCard(y: nat, n: nat)
    ensures |YearKeys(y, n)| <= DaysBeforeMonthEnd(y, n)
  {
    if n > 0 {
      YearKeysCard(y, n - 1);
      MonthKeysCard(y, n, DaysInMonth(y, n));
    }
  }

  lemma {:induction false} InMonthKeys(d: Date, n: nat)
    requires 1 <= d.day <= n
    ensures Key(d) in MonthKeys(d.year, d.month, n)
  {
    if d.day < n {
      InMonthKeys(d, n - 1);
    }
  }

  lemma {:induction false} InYearKeys(d: Date, n: nat)
    requires ValidDate(d) && d.month <= n
    ensures Key(d) in YearKeys(d.year, n)
  {
    if d.month < n {
      InYearKeys(d, n - 1);
    } else {
      InMonthKeys(d, DaysInMonth(d.year, d.month));
    }
  }

  /** Every log entry of every task is dated on a real calendar day. */
  predicate AllDatesValid(tasks: seq<Task>) {
    forall i, j :: 0 <= i < |tasks| && 0 <= j < |tasks[i].logs| ==> ValidDate(tasks[i].logs[j].date)
  }

  /** The keys of the period's days: a month's days, or all days of the year. */
  function PeriodKeys(view: ViewType, year: nat, month: Month): set<string> {
    if view == Monthly then MonthKeys(year, month, DaysInMonth(year, month)) else YearKeys(year, 12)
  }

  lemma {:induction false} ActiveKeysOfInPeriod(logs: seq<DailyLog>, view: ViewType, year: nat, month: Month)
    requires forall j :: 0 <= j < |logs| ==> ValidDate(logs[j].date)
    ensures ActiveKeysOf(PeriodLogs(logs, FilterPrefix(view, year, month))) <= PeriodKeys(view, year, month)
  {
    var prefix := FilterPrefix(view, year, month);
    var p := PeriodLogs(logs, prefix);
    PeriodLogsMembers(logs, prefix);
    ActiveKeysOfSubset(p, PeriodKeys(view, year, month), view, year, month);
  }

  lemma {:induction false} ActiveKeysOfSubset(p: seq<DailyLog>, keys: set<string>, view: ViewType, year: nat, month: Month)
    requires keys == PeriodKeys(view, year, month)
    requires forall l :: l in p ==> ValidDate(l.date) && StartsWith(Key(l.date), FilterPrefix(view, year, month))
    ensures ActiveKeysOf(p) <= keys
  {
    if p != [] {
      var init := p[..|p| - 1];
      assert forall l :: l in init ==> l in p;
      ActiveKeysOfSubset(init, keys, view, year, month);
      var d := p[|p| - 1].date;
      assert p[|p| - 1] in p;
      if view == Monthly {
        MonthPrefixMatch(d, year, month);
        InMonthKeys(d, DaysInMonth(year, month));
      } else {
        YearPrefixMatch(d, year);
        InYearKeys(d, 12);
      }
    }
  }

  lemma {:induction false} ActiveKeysInPeriod(tasks: seq<Task>, view: ViewType, year: nat, month: Month)
    requires AllDatesValid(tasks)
    ensures ActiveKeys(tasks, FilterPrefix(view, year, month)) <= PeriodKeys(view, year, month)
  {
    if tasks != [] {
      var init := tasks[..|tasks| - 1];
      assert AllDatesValid(init) by {
        forall i, j | 0 <= i < |init| && 0 <= j < |init[i].logs| ensures ValidDate(init[i].logs[j].date) {
          assert init[i] == tasks[i];
        }
      }
      ActiveKeysInPeriod(init, view, year, month);
      ActiveKeysOfInPeriod(tasks[|tasks| - 1].logs, view, year, month);
    }
  }

  lemma {:induction false} SubsetCard<T>(a: set<T>, b: set<T>)
    requires a <= b
    ensures |a| <= |b|
    decreases |a|
  {
    if a != {} {
      var x :| x in a;
      SubsetCard(a - {x}, b - {x});
    }
  }

  /** With every log dated on a real day, the distinct active days of the
      period never exceed the number of days in the period. */
  lemma {:induction false} ActiveDaysAtMostPeriodDays(tasks: seq<Task>, view: ViewType, year: nat, month: Month)
    requires AllDatesValid(tasks)
    ensures |ActiveKeys(tasks, FilterPrefix(view, year, month))| <= PeriodDays(view, year, month)
  {
    ActiveKeysInPeriod(tasks, view, year, month);
    SubsetCard(ActiveKeys(tasks, FilterPrefix(view, year, month)), PeriodKeys(view, year, month));
    if view == Monthly {
      MonthKeysCard(year, month, DaysInMonth(year, month));
    } else {
      YearKeysCard(year, 12);
      MonthsMakeYear(year);
    }
  }

  // ---------------------------------------------------------------------
  // Bar chart buckets

  /** `Math.min(4, Math.floor((day - 1) / 7))`; negative for day 0. */
  function WeekIndex(day: nat): (w: int)
    ensures day == 0 ==> w == -1
    ensures day >= 1 ==> 0 <= w <= 4
    ensures 1 <= day <= 35 ==> 7 * w < day <= 7 * w + 7
    ensures day > 35 ==> w == 4
  {
    Min(4, (day - 1) / 7)
  }

  /** Units logged on days whose week index is w. */
  function WeekSum(logs: seq<DailyLog>, w: int): nat {
    if logs == [] then 0
    else
      var last := logs[|logs| - 1];
      WeekSum(logs[..|logs| - 1], w) + (if WeekIndex(last.date.day) == w then last.count else 0)
  }

  /** Week bucket w of the monthly bar chart, over all tasks. */
  function WeekBucket(tasks: seq<Task>, prefix: string, w: int): nat {
    if tasks == [] then 0
    else WeekBucket(tasks[..|tasks| - 1], prefix, w) + WeekSum(PeriodLogs(tasks[|tasks| - 1].logs, prefix), w)
  }

  predicate HasDayZero(logs: seq<DailyLog>) {
    exists j :: 0 <= j < |logs| && logs[j].date.day == 0
  }

  /** Some entry of the month is dated day 0 (`YYYY-MM-00`): its week index
      is -1, `periodData[-1]` is undefined and the bucket update throws. */
  predicate WeekBucketsThrow(tasks: seq<Task>, prefix: string) {
    tasks != []
    && (WeekBucketsThrow(tasks[..|tasks| - 1], prefix) || HasDayZero(PeriodLogs(tasks[|tasks| - 1].logs, prefix)))
  }

  /** Once the buckets of a prefix of the task list throw, so do those of
      the whole list. */
  lemma {:induction false} ThrowExtends(tasks: seq<Task>, k: nat, prefix: string)
    requires k <= |tasks| && WeekBucketsThrow(tasks[..k], prefix)
    ensures WeekBucketsThrow(tasks, prefix)
    decreases |tasks| - k
  {
    if k < |tasks| {
      assert tasks[..k + 1][..k] == tasks[..k];
      ThrowExtends(tasks, k + 1, prefix);
    } else {
      assert tasks[..k] == tasks;
    }
  }

  datatype PeriodBar = PeriodBar(completed: nat, goal: real)

  /** The goal line of each bar: the period goal shared equally by the bars. */
  function BarGoal(totalGoal: int, bars: nat): (g: real)
    requires bars > 0
    ensures g * (bars as real) == totalGoal as real
  {
    totalGoal as real / bars as real
  }

  /** Bars with the bucket totals of `completed` and an equal share of the goal each. */
  function Bars(completed: seq<nat>, totalGoal: int): (r: seq<PeriodBar>)
    requires |completed| > 0
    ensures |r| == |completed|
    ensures forall i :: 0 <= i < |r| ==> r[i].completed == completed[i] && r[i].goal == BarGoal(totalGoal, |completed|)
  {
    seq(|completed|, i requires 0 <= i < |completed| => PeriodBar(completed[i], BarGoal(totalGoal, |completed|)))
  }

  /** The inner loop of the weekly buckets for one task: each entry's count
      is added to its week's bucket; an entry dated day 0 stops the loop
      with `false` (the exception). */
  method AddWeekSums(completed: array<nat>, logs: seq<DailyLog>) returns (ok: bool)
    requires completed.Length == 5
    modifies completed
    ensures ok <==> !HasDayZero(logs)
    ensures ok ==> forall w :: 0 <= w < 5 ==> completed[w] == old(completed[w]) + WeekSum(logs, w)
  {
    var j := 0;
    while j < |logs|
      invariant 0 <= j <= |logs|
      invariant forall w :: 0 <= w < 5 ==> completed[w] == old(completed[w]) + WeekSum(logs[..j], w)
      invariant !HasDayZero(logs[..j])
    {
      var l := logs[j];
      assert logs[..j + 1][..j] == logs[..j] && logs[..j + 1][j] == l;
      var weekIdx := WeekIndex(l.date.day);
      if weekIdx < 0 {
        assert logs[j].date.day == 0;
        return false;
      }
      completed[weekIdx] := completed[weekIdx] + l.count;
      j := j + 1;
    }
    assert logs[..j] == logs;
    return true;
  }

  /** The bucket loop of the monthly view: every period entry of every task
      adds its count to its week's bucket; `None` models the exception
      thrown for an entry dated day 0. */
  method WeekBuckets(tasks: seq<Task>, prefix: string) returns (r: Option<seq<nat>>)
    ensures r.None? <==> WeekBucketsThrow(tasks, prefix)
    ensures r.Some? ==> |r.value| == 5 && forall w :: 0 <= w < 5 ==> r.value[w] == WeekBucket(tasks, prefix, w)
  {
    var completed := new nat[5](_ => 0);
    var k := 0;
    while k < |tasks|
      invariant 0 <= k <= |tasks|
      invariant forall w :: 0 <= w < 5 ==> completed[w] == WeekBucket(tasks[..k], prefix, w)
      invariant !WeekBucketsThrow(tasks[..k], prefix)
    {
      assert tasks[..k + 1][..k] == tasks[..k] && tasks[..k + 1][k] == tasks[k];
      var ok := AddWeekSums(completed, PeriodLogs(tasks[k].logs, prefix));
      if !ok {
        ThrowExtends(tasks, k + 1, prefix);
        return None;
      }
      k := k + 1;
    }
    assert tasks[..k] == tasks;
    return Some(completed[..]);
  }

  /** The monthly view's five weekly bars, each with a fifth of the goal. */
  method WeeklyBars(tasks: seq<Task>, year: nat, month: Month, totalGoal: int) returns (r: Option<seq<PeriodBar>>)
    ensures r.None? <==> WeekBucketsThrow(tasks, MonthPrefix(year, month))
    ensures r.Some? ==> |r.value| == 5
    ensures r.Some? ==> forall w :: 0 <= w < 5 ==>
              r.value[w].completed == WeekBucket(tasks, MonthPrefix(year, month), w)
              && r.value[w].goal == BarGoal(totalGoal, 5)
  {
    var buckets := WeekBuckets(tasks, MonthPrefix(year, month));
    if buckets.None? {
      return None;
    }
    r := Some(Bars(buckets.value, totalGoal));
  }

  /** Five-way sum of a per-bucket quantity. */
  function SumOfFive(f: int -> nat): nat {
    f(0) + f(1) + f(2) + f(3) + f(4)
  }

  lemma {:induction false} WeekSumsCover(logs: seq<DailyLog>)
    requires !HasDayZero(logs)
    ensures WeekSum(logs, 0) + WeekSum(logs, 1) + WeekSum(logs, 2) + WeekSum(logs, 3) + WeekSum(logs, 4)
            == SumCounts(logs)
  {
    if logs != [] {
      var init := logs[..|logs| - 1];
      assert !HasDayZero(init) by {
        forall j | 0 <= j < |init| ensures init[j].date.day != 0 {
          assert init[j] == logs[j];
        }
      }
      WeekSumsCover(init);
      var day := logs[|logs| - 1].date.day;
      assert day >= 1;
      assert 0 <= WeekIndex(day) <= 4;
    }
  }

  /** When no entry is dated day 0, the five weekly bars add up to the
      month's total: every unit lands in exactly one bucket. */
  lemma {:induction false} WeekBucketsSumToTotal(tasks: seq<Task>, prefix: string)
    requires !WeekBucketsThrow(tasks, prefix)
    ensures WeekBucket(tasks, prefix, 0) + WeekBucket(tasks, prefix, 1) + WeekBucket(tasks, prefix, 2)
            + WeekBucket(tasks, prefix, 3) + WeekBucket(tasks, prefix, 4)
            == TotalDone(tasks, prefix)
  {
    if tasks != [] {
      var init := tasks[..|tasks| - 1];
      WeekBucketsSumToTotal(init, prefix);
      WeekSumsCover(PeriodLogs(tasks[|tasks| - 1].logs, prefix));
    }
  }

  /** Units logged in calendar month m (the `parseInt` of the month field). */
  function MonthSum(logs: seq<DailyLog>, m: int): nat {
    if logs == [] then 0
    else
      var last := logs[|logs| - 1];
      MonthSum(logs[..|logs| - 1], m) + (if last.date.month == m then last.count else 0)
  }

  /** The bucket of month m in the yearly bar chart, over all tasks. */
  function MonthBucket(tasks: seq<Task>, prefix: string, m: int): nat {
    if tasks == [] then 0
    else MonthBucket(tasks[..|tasks| - 1], prefix, m) + MonthSum(PeriodLogs(tasks[|tasks| - 1].logs, prefix), m)
  }

  /** The inner loop of the monthly buckets for one task: each entry whose
      month is in 1..12 adds its count to that month's bucket. */
  method AddMonthSums(completed: array<nat>, logs: seq<DailyLog>)
    requires completed.Length == 12
    modifies completed
    ensures forall m :: 1 <= m <= 12 ==> completed[m - 1] == old(completed[m - 1]) + MonthSum(logs, m)
  {
    var j := 0;
    while j < |logs|
      invariant 0 <= j <= |logs|
      invariant forall m :: 1 <= m <= 12 ==> completed[m - 1] == old(completed[m - 1]) + MonthSum(logs[..j], m)
    {
      var l := logs[j];
      assert logs[..j + 1][..j] == logs[..j] && logs[..j + 1][j] == l;
      var m := l.date.month;
      if m >= 1 && m <= 12 {
        completed[m - 1] := completed[m - 1] + l.count;
      }
      j := j + 1;
    }
    assert logs[..j] == logs;
  }

  /** The yearly view's twelve monthly bars; entries whose month is outside
      1..12 are skipped. */
  method MonthlyBars(tasks: seq<Task>, year: nat, totalGoal: int) returns (bars: seq<PeriodBar>)
    ensures |bars| == 12
    ensures forall m :: 1 <= m <= 12 ==> bars[m - 1].completed == MonthBucket(tasks, YearPrefix(year), m)
    ensures forall i :: 0 <= i < 12 ==> bars[i].goal == BarGoal(totalGoal, 12)
  {
    var prefix := YearPrefix(year);
    var completed := new nat[12](_ => 0);
    var k := 0;
    while k < |tasks|
      invariant 0 <= k <= |tasks|
      invariant forall m :: 1 <= m <= 12 ==> completed[m - 1] == MonthBucket(tasks[..k], prefix, m)
    {
      assert tasks[..k + 1][..k] == tasks[..k] && tasks[..k + 1][k] == tasks[k];
      AddMonthSums(completed, PeriodLogs(tasks[k].logs, prefix));
      k := k + 1;
    }
    assert tasks[..k] == tasks;
    bars := Bars(completed[..], totalGoal);
  }

  function MonthSumsUpTo(logs: seq<DailyLog>, n: nat): nat {
    if n == 0 then 0 else MonthSumsUpTo(logs, n - 1) + MonthSum(logs, n)
  }

  function MonthBucketsUpTo(tasks: seq<Task>, prefix: string, n: nat): nat {
    if n == 0 then 0 else MonthBucketsUpTo(tasks, prefix, n - 1) + MonthBucket(tasks, prefix, n)
  }

  lemma {:induction false} MonthSumsStep(logs: seq<DailyLog>, n: nat)
    requires logs != []
    ensures MonthSumsUpTo(logs, n)
            == MonthSumsUpTo(logs[..|logs| - 1], n)
               + (if 1 <= logs[|logs| - 1].date.month <= n then logs[|logs| - 1].count else 0)
  {
    if n > 0 {
      MonthSumsStep(logs, n - 1);
    }
  }

  lemma {:induction false} MonthSumsOfEmpty(n: nat)
    ensures MonthSumsUpTo([], n) == 0
  {
    if n > 0 {
      MonthSumsOfEmpty(n - 1);
    }
  }

  lemma {:induction false} MonthBucketsOfEmpty(prefix: string, n: nat)
    ensures MonthBucketsUpTo([], prefix, n) == 0
  {
    if n > 0 {
      MonthBucketsOfEmpty(prefix, n - 1);
    }
  }

  lemma {:induction false} MonthSumsCover(logs: seq<DailyLog>)
    requires forall l :: l in logs ==> 1 <= l.date.month <= 12
    ensures MonthSumsUpTo(logs, 12) == SumCounts(logs)
  {
    if logs != [] {
      var init := logs[..|logs| - 1];
      var last := logs[|logs| - 1];
      assert logs == init + [last];
      assert last in logs;
      MonthSumsCover(init);
      MonthSumsStep(logs, 12);
      assert SumCounts(logs) == SumCounts(init) + last.count;
    } else {
      MonthSumsOfEmpty(12);
    }
  }

  lemma {:induction false} MonthBucketsStep(tasks: seq<Task>, prefix: string, n: nat)
    requires tasks != []
    ensures MonthBucketsUpTo(tasks, prefix, n)
            == MonthBucketsUpTo(tasks[..|tasks| - 1], prefix, n)
               + MonthSumsUpTo(PeriodLogs(tasks[|tasks| - 1].logs, prefix), n)
  {
    var init := tasks[..|tasks| - 1];
    var p := PeriodLogs(tasks[|tasks| - 1].logs, prefix);
    var k := 0;
    while k < n
      invariant k <= n
      invariant MonthBucketsUpTo(tasks, prefix, k) == MonthBucketsUpTo(init, prefix, k) + MonthSumsUpTo(p, k)
    {
      k := k + 1;
    }
  }

  /** When every entry has a month in 1..12, the twelve monthly bars add up
      to the year's total. */
  lemma {:induction false} MonthBucketsSumToTotal(tasks: seq<Task>, prefix: string)
    requires forall t, l :: t in tasks && l in t.logs ==> 1 <= l.date.month <= 12
    ensures MonthBucketsUpTo(tasks, prefix, 12) == TotalDone(tasks, prefix)
  {
    if tasks != [] {
      var init := tasks[..|tasks| - 1];
      var last := tasks[|tasks| - 1];
      assert tasks == init + [last];
      assert last in tasks;
      MonthBucketsSumToTotal(init, prefix);
      MonthBucketsStep(tasks, prefix, 12);
      PeriodLogsMembers(last.logs, prefix);
      MonthSumsCover(PeriodLogs(last.logs, prefix));
    } else {
      MonthBucketsOfEmpty(prefix, 12);
    }
  }

  // ---------------------------------------------------------------------
  // Daily trend

  /** Units logged on date d over all tasks (first matching entry of each). */
  function DayTotal(tasks: seq<Task>, d: Date): nat {
    if tasks == [] then 0 else DayTotal(tasks[..|tasks| - 1], d) + CountOf(tasks[|tasks| - 1].logs, d)
  }

  /** The monthly view's line chart: one point per day of the month, each the
      sum over tasks of that day's count (the lookup is by the day's
      `YYYY-MM-DD` key, which `KeyInjective` makes a lookup by date). */
  method DailyTrend(tasks: seq<Task>, year: nat, month: Month) returns (trend: seq<nat>)
    ensures |trend| == DaysInMonth(year, month)
    ensures forall i :: 0 <= i < |trend| ==> trend[i] == DayTotal(tasks, Date(year, month, i + 1))
  {
    var daysInMonth := DaysInMonth(year, month);
    trend := [];
    var i := 1;
    while i <= daysInMonth
      invariant 1 <= i <= daysInMonth + 1
      invariant |trend| == i - 1
      invariant forall j :: 0 <= j < i - 1 ==> trend[j] == DayTotal(tasks, Date(year, month, j + 1))
    {
      var date := Date(year, month, i);
      var dayTotal := 0;
      var k := 0;
      while k < |tasks|
        invariant 0 <= k <= |tasks|
        invariant dayTotal == DayTotal(tasks[..k], date)
      {
        assert tasks[..k + 1][..k] == tasks[..k] && tasks[..k + 1][k] == tasks[k];
        dayTotal := dayTotal + CountOf(tasks[k].logs, date);
        k := k + 1;
      }
      assert tasks[..k] == tasks;
      trend := trend + [dayTotal];
      i := i + 1;
    }
  }

  // ---------------------------------------------------------------------
  // Navigation

  /** `handlePrev`: one month back in the monthly view, one year back in the
      yearly view (same month). */
  function HandlePrev(view: ViewType, v: YearMonth): (r: YearMonth)
    ensures MonthIndex(r) == MonthIndex(v) - (if view == Monthly then 1 else 12)
  {
    if view == Monthly then PrevMonth(v) else YearMonth(v.year - 1, v.month)
  }

  /** `handleNext`: one month forward in the monthly view, one year forward
      in the yearly view. */
  function HandleNext(view: ViewType, v: YearMonth): (r: YearMonth)
    ensures MonthIndex(r) == MonthIndex(v) + (if view == Monthly then 1 else 12)
  {
    if view == Monthly then NextMonth(v) else YearMonth(v.year + 1, v.month)
  }

  /** Next undoes Prev and Prev undoes Next, in either view. */
  lemma {:induction false} HandlePrevNextInverse(view: ViewType, v: YearMonth)
    ensures HandleNext(view, HandlePrev(view, v)) == v
    ensures HandlePrev(view, HandleNext(view, v)) == v
  {
    MonthIndexInjective(HandleNext(view, HandlePrev(view, v)), v);
    MonthIndexInjective(HandlePrev(view, HandleNext(view, v)), v);
  }
}
