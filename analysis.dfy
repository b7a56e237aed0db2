/** The figures an AI report is written from: the single-task summary of
    elapsed time, logged volume, expected pace and remaining effort, the
    per-task period totals of the integrated report, and the fixed
    reports returned when the model call fails. The model call itself is
    represented by its parsed reply, `None` when it failed. */
module Analysis {
  import opened Wrappers
  import opened Arith
  import opened Dates
  import opened Types
  import opened LogCollection
  import opened Goals
  import opened Seqs
  import Dashboard

  /** Milliseconds in a day (1000 * 60 * 60 * 24). */
  const MsPerDay: int := 86400000

  /** `Math.ceil(a / b)` for a positive divisor: the least multiple count
      covering `a`. */
  function CeilDiv(a: int, b: int): (r: int)
    requires b > 0
    ensures (r - 1) * b < a <= r * b
  {
    var q := (-a) / b;
    assert q * b <= -a < q * b + b;
    -q
  }

  // ---------------------------------------------------------------------
  // Elapsed time (timestamps in milliseconds)

  /** `totalDays`: the days from start to end counted inclusively, so a
      period ending on its start day lasts one day; never less than 1. */
  function TotalDays(startMs: int, endMs: int): (r: nat)
    ensures r >= 1
    ensures endMs <= startMs ==> r == 1
    ensures endMs > startMs ==> (r - 2) * MsPerDay < endMs - startMs <= (r - 1) * MsPerDay
  {
    Max(1, CeilDiv(endMs - startMs, MsPerDay) + 1)
  }

  /** `daysPassed`: 0 until the start instant, then the number of started
      days since it. */
  function DaysPassed(startMs: int, nowMs: int): (r: nat)
    ensures nowMs <= startMs ==> r == 0
    ensures nowMs > startMs ==> (r - 1) * MsPerDay < nowMs - startMs <= r * MsPerDay
  {
    Max(0, CeilDiv(nowMs - startMs, MsPerDay))
  }

  /** A period whose end lies a whole number `k` of days after its start
      lasts `k + 1` days. */
  lemma TotalDaysOfWholeDays(startMs: int, k: nat)
    ensures TotalDays(startMs, startMs + k * MsPerDay) == k + 1
  {
    var r := TotalDays(startMs, startMs + k * MsPerDay);
    if k > 0 {
      assert (r - 2) * MsPerDay < k * MsPerDay <= (r - 1) * MsPerDay;
      assert r - 2 < k <= r - 1;
    }
  }

  /** `progressPercent`: the elapsed share of the period, capped at 100. */
  function TimeProgress(daysPassed: nat, totalDays: nat): (p: real)
    requires totalDays >= 1
    ensures 0.0 <= p <= 100.0
    ensures p == 100.0 <==> daysPassed >= totalDays
    ensures p < 100.0 ==> p * (totalDays as real) == 100.0 * (daysPassed as real)
  {
    var q := (daysPassed as real) / (totalDays as real);
    assert q * (totalDays as real) == daysPassed as real;
    assert q * 100.0 >= 100.0 <==> daysPassed >= totalDays;
    MinReal(100.0, q * 100.0)
  }

  /** `consistency`: active days per elapsed day, in percent; 0 before
      the start. Entries outside the elapsed days also count, so it can
      exceed 100. */
  function Consistency(activeDays: nat, daysPassed: nat): (c: real)
    ensures daysPassed == 0 ==> c == 0.0
    ensures daysPassed > 0 ==> c * (daysPassed as real) == 100.0 * (activeDays as real)
    ensures c >= 0.0
  {
    if daysPassed > 0 then
      var q := (activeDays as real) / (daysPassed as real);
      assert q * (daysPassed as real) == activeDays as real;
      q * 100.0
    else 0.0
  }

  // ---------------------------------------------------------------------
  // Expected and total goals

  /** `Math.round(n / d)` for a positive `d`: the integer nearest to n / d,
      halves rounded upwards (so -2.5 rounds to -2). */
  function RoundHalfUp(n: int, d: int): (r: int)
    requires d > 0
    ensures 2 * d * r - d <= 2 * n < 2 * d * r + d
  {
    (2 * n + d) / (2 * d)
  }

  /** Units the weekly target calls for over `days` days, rounded:
      `expectedTotalToDate` for the elapsed days and `totalGoal` for the
      whole period. */
  function GoalForDays(days: nat, weeklyTarget: int): (r: int)
    ensures 14 * r - 7 <= 2 * days * weeklyTarget < 14 * r + 7
  {
    RoundHalfUp(days * weeklyTarget, 7)
  }

  /** Over whole weeks the rounded goal is exactly that many weekly targets. */
  lemma GoalForWholeWeeks(weeks: nat, weeklyTarget: int)
    ensures GoalForDays(7 * weeks, weeklyTarget) == weeks * weeklyTarget
  {
    var k := weeks * weeklyTarget;
    assert 7 * weeks * weeklyTarget == 7 * k;
    var r := RoundHalfUp(7 * k, 7);
    assert 14 * r - 7 <= 14 * k < 14 * r + 7;
  }

  /** For a non-negative weekly target the goal grows with the days. */
  lemma GoalForDaysMonotone(d1: nat, d2: nat, weeklyTarget: int)
    requires d1 <= d2 && weeklyTarget >= 0
    ensures GoalForDays(d1, weeklyTarget) <= GoalForDays(d2, weeklyTarget)
  {
    var n1, n2 := d1 * weeklyTarget, d2 * weeklyTarget;
    assert n1 <= n2 by {
      assert n2 - n1 == (d2 - d1) * weeklyTarget;
    }
    var r1, r2 := RoundHalfUp(n1, 7), RoundHalfUp(n2, 7);
    assert 14 * r1 - 7 <= 2 * n1 && 2 * n2 < 14 * r2 + 7;
  }

  // ---------------------------------------------------------------------
  // The single-task summary

  datatype TaskFigures = TaskFigures(
    totalDays: nat,
    daysPassed: nat,
    progressPercent: real,
    totalLogged: nat,
    activeDays: nat,
    consistency: real,
    weeklyTarget: int,
    expectedTotalToDate: int,
    gap: int,
    totalGoal: int,
    remainingGoal: nat,
    remainingDays: nat,
    requiredDailyAvg: Option<real>)

  /** Every figure written into the single-task prompt; the task's start
      and end dates and the clock are given as millisecond timestamps. */
  function Figures(task: Task, startMs: int, endMs: int, nowMs: int): (f: TaskFigures)
    ensures f.totalDays == TotalDays(startMs, endMs) && f.totalDays >= 1
    ensures f.daysPassed == DaysPassed(startMs, nowMs)
    ensures f.progressPercent == TimeProgress(f.daysPassed, f.totalDays)
    ensures 0.0 <= f.progressPercent <= 100.0
    ensures f.progressPercent == 100.0 <==> f.daysPassed >= f.totalDays
    ensures f.totalLogged == SumCounts(task.logs)
    ensures f.activeDays == ActiveCount(task.logs) && f.activeDays <= |task.logs|
    ensures f.consistency == Consistency(f.activeDays, f.daysPassed)
    ensures f.weeklyTarget == WeeklyTarget(task.dailyGoal, task.weeklyDays)
    ensures f.expectedTotalToDate == GoalForDays(f.daysPassed, f.weeklyTarget)
    ensures f.gap == f.totalLogged - f.expectedTotalToDate
    ensures f.totalGoal == GoalForDays(f.totalDays, f.weeklyTarget)
    ensures f.remainingGoal == RemainingGoal(f.totalGoal, f.totalLogged)
    ensures f.remainingDays == Max(0, f.totalDays - f.daysPassed)
    ensures f.requiredDailyAvg == RequiredDaily(f.remainingGoal, f.remainingDays)
    ensures f.daysPassed <= f.totalDays ==> f.daysPassed + f.remainingDays == f.totalDays
    ensures f.daysPassed >= f.totalDays ==> f.remainingDays == 0
    ensures f.requiredDailyAvg.None? <==> f.remainingDays == 0
    ensures f.weeklyTarget >= 0 && f.daysPassed <= f.totalDays ==> f.expectedTotalToDate <= f.totalGoal
  {
    var totalDays := TotalDays(startMs, endMs);
    var daysPassed := DaysPassed(startMs, nowMs);
    var totalLogged := SumCounts(task.logs);
    var activeDays := ActiveCount(task.logs);
    var weeklyTarget := WeeklyTarget(task.dailyGoal, task.weeklyDays);
    var expected := GoalForDays(daysPassed, weeklyTarget);
    var totalGoal := GoalForDays(totalDays, weeklyTarget);
    var remainingGoal := RemainingGoal(totalGoal, totalLogged);
    var remainingDays := Max(0, totalDays - daysPassed);
    ActiveCountAtMostLength(task.logs);
    assert weeklyTarget >= 0 && daysPassed <= totalDays ==> expected <= totalGoal by {
      if weeklyTarget >= 0 && daysPassed <= totalDays {
        GoalForDaysMonotone(daysPassed, totalDays, weeklyTarget);
      }
    }
    TaskFigures(totalDays, daysPassed, TimeProgress(daysPassed, totalDays), totalLogged, activeDays,
                Consistency(activeDays, daysPassed), weeklyTarget, expected, totalLogged - expected,
                totalGoal, remainingGoal, remainingDays, RequiredDaily(remainingGoal, remainingDays))
  }

  // ---------------------------------------------------------------------
  // The integrated report's per-task totals

  /** The report covers the year when no month is given, the month
      otherwise. */
  function ReportPrefix(year: nat, month: Option<Month>): string {
    if month.None? then YearPrefix(year) else MonthPrefix(year, month.value)
  }

  /** The month the dashboard passes: the viewed month in the monthly view,
      none in the yearly one. */
  function DashboardMonth(view: Dashboard.ViewType, month: Month): Option<Month> {
    if view == Dashboard.Monthly then Some(month) else None
  }

  /** The report filters exactly as the dashboard it is launched from. */
  lemma ReportMatchesDashboard(view: Dashboard.ViewType, year: nat, month: Month)
    ensures ReportPrefix(year, DashboardMonth(view, month)) == Dashboard.FilterPrefix(view, year, month)
  {
  }

  /** One line of the integrated prompt: a task's name, its units in the
      period and its daily goal. */
  datatype TaskLine = TaskLine(name: string, done: nat, dailyGoal: int)

  function Line(task: Task, prefix: string): TaskLine {
    TaskLine(task.name, SumCounts(PeriodLogs(task.logs, prefix)), task.dailyGoal)
  }

  /** The lines of the integrated prompt, one per task in task order. */
  function ReportLines(tasks: seq<Task>, year: nat, month: Option<Month>): seq<TaskLine> {
    MapSeq(t => Line(t, ReportPrefix(year, month)), tasks)
  }

  /** Units summed over a list of lines. */
  function LinesDone(lines: seq<TaskLine>): nat {
    if lines == [] then 0 else LinesDone(lines[..|lines| - 1]) + lines[|lines| - 1].done
  }

  /** Each line carries its task's period total as the dashboard computes it. */
  lemma ReportLinesAt(tasks: seq<Task>, year: nat, month: Option<Month>)
    ensures |ReportLines(tasks, year, month)| == |tasks|
    ensures forall i :: 0 <= i < |tasks| ==>
              ReportLines(tasks, year, month)[i] ==
              TaskLine(tasks[i].name, Dashboard.TaskDone(tasks[i], ReportPrefix(year, month)), tasks[i].dailyGoal)
  {
    MapSeqAt(t => Line(t, ReportPrefix(year, month)), tasks);
  }

  /** The lines add up to the dashboard's total for the same period. */
  lemma {:induction false} ReportLinesTotal(tasks: seq<Task>, year: nat, month: Option<Month>)
    ensures LinesDone(ReportLines(tasks, year, month)) == Dashboard.TotalDone(tasks, ReportPrefix(year, month))
  {
    if tasks != [] {
      var f := t => Line(t, ReportPrefix(year, month));
      var init := tasks[..|tasks| - 1];
      ReportLinesTotal(init, year, month);
      var lines := MapSeq(f, tasks);
      assert lines == MapSeq(f, init) + [f(tasks[|tasks| - 1])];
      assert lines[..|lines| - 1] == MapSeq(f, init);
    }
  }

  // ---------------------------------------------------------------------
  // Outcome of the model call

  const NoData: string := "데이터 부족"
  const NoForecast: string := "예측 불가"
  const RetryLater: string := "잠시 후 다시 시도해주세요"
  /** Headline of the single-task report when the call fails. */
  const TaskFailure: string := "분석 중 오류 발생"
  /** Headline of the integrated report when the call fails. */
  const IntegratedFailure: string := "종합 분석 실패"

  /** The report shown: the parsed reply stamped with the current time, or
      the one-line-per-section fallback headed by `headline` when the call
      or the parse failed. */
  function Outcome(reply: Option<AnalysisResult>, headline: string, now: int): (r: AnalysisResult)
    ensures r.timestamp == now
    ensures reply.Some? ==> r == reply.value.(timestamp := now)
    ensures reply.None? ==>
              r.basicAnalysis == [headline] && r.goalPerformance == [NoData] &&
              r.averageAndPrediction == [NoForecast] && r.suggestions == [RetryLater]
  {
    match reply
    case Some(res) => res.(timestamp := now)
    case None => AnalysisResult([headline], [NoData], [NoForecast], [RetryLater], now)
  }

  /** `analyzeTaskPerformance`'s result for a given reply. */
  function AnalyzeTask(reply: Option<AnalysisResult>, now: int): (r: AnalysisResult)
    ensures r.timestamp == now
    ensures reply.Some? ==> r == reply.value.(timestamp := now)
    ensures reply.None? ==> r.basicAnalysis == [TaskFailure] && r.goalPerformance == [NoData] &&
                            r.averageAndPrediction == [NoForecast] && r.suggestions == [RetryLater]
  {
    Outcome(reply, TaskFailure, now)
  }

  /** `analyzeIntegratedPerformance`'s result for a given reply. */
  function AnalyzeIntegrated(reply: Option<AnalysisResult>, now: int): (r: AnalysisResult)
    ensures r.timestamp == now
    ensures reply.Some? ==> r == reply.value.(timestamp := now)
    ensures reply.None? ==> r.basicAnalysis == [IntegratedFailure] && r.goalPerformance == [NoData] &&
                            r.averageAndPrediction == [NoForecast] && r.suggestions == [RetryLater]
  {
    Outcome(reply, IntegratedFailure, now)
  }
}
