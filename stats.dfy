/** The four summary cards of a single task for the viewed month: units
    logged, active days, goal-met days and the daily pace still required,
    measured against today's date. */
module Stats {
  import opened Wrappers
  import opened Dates
  import opened Types
  import opened LogCollection
  import opened Goals
  import Dashboard

  /** The viewed month is today's month. */
  predicate IsCurrentMonth(today: Date, year: nat, month: Month) {
    today.year == year && today.month == month
  }

  /** Position of today's month on the month line. */
  function TodayIndex(today: Date): int
    requires ValidDate(today)
  {
    MonthIndex(YearMonth(today.year, today.month))
  }

  /** `daysPassed`: today's day of the month for the current month, the whole
      month once today is past its last day, 0 for a month still ahead. */
  function DaysPassed(today: Date, year: nat, month: Month): (r: nat)
    requires ValidDate(today)
    ensures IsCurrentMonth(today, year, month) ==> r == today.day
    ensures TodayIndex(today) > MonthIndex(YearMonth(year, month)) ==> r == DaysInMonth(year, month)
    ensures TodayIndex(today) < MonthIndex(YearMonth(year, month)) ==> r == 0
  {
    if IsCurrentMonth(today, year, month) then today.day
    else if Before(Date(year, month, DaysInMonth(year, month)), today) then DaysInMonth(year, month)
    else 0
  }

  /** `remainingDays`: the rest of the current month, the whole month while
      today is before its first day, 0 for a month already past. */
  function RemainingDays(today: Date, year: nat, month: Month): (r: nat)
    requires ValidDate(today)
    ensures IsCurrentMonth(today, year, month) ==> r == DaysInMonth(year, month) - today.day
    ensures TodayIndex(today) > MonthIndex(YearMonth(year, month)) ==> r == 0
    ensures TodayIndex(today) < MonthIndex(YearMonth(year, month)) ==> r == DaysInMonth(year, month)
  {
    if IsCurrentMonth(today, year, month) then DaysInMonth(year, month) - today.day
    else if Before(today, Date(year, month, 1)) then DaysInMonth(year, month)
    else 0
  }

  /** Elapsed and remaining days always split the month exactly, in each of
      the three cases (current, past, future). */
  lemma DaysSplitMonth(today: Date, year: nat, month: Month)
    requires ValidDate(today)
    ensures DaysPassed(today, year, month) + RemainingDays(today, year, month) == DaysInMonth(year, month)
  {
  }

  /** `progressPercent`: done / goal * 100 for a positive goal, 0 otherwise;
      unlike the dashboard's figure it is not clamped, so it exceeds 100
      once the goal is overshot. */
  function UnclampedProgress(done: nat, goal: int): (p: real)
    ensures 0.0 <= p
    ensures goal <= 0 ==> p == 0.0
    ensures goal > 0 ==> p * (goal as real) == 100.0 * (done as real)
    ensures goal > 0 ==> (p > 100.0 <==> done > goal)
  {
    if goal > 0 then
      var q := (done as real) / (goal as real);
      assert q * (goal as real) == done as real;
      q * 100.0
    else 0.0
  }

  /** The goal-met share of active days, in percent; 0 without active days. */
  function GoalMetPercent(goalMetDays: nat, activeDays: nat): (p: real)
    ensures activeDays == 0 ==> p == 0.0
    ensures activeDays > 0 ==> p * (activeDays as real) == 100.0 * (goalMetDays as real)
    ensures goalMetDays <= activeDays ==> 0.0 <= p <= 100.0
  {
    if activeDays > 0 then
      var q := (goalMetDays as real) / (activeDays as real);
      assert q * (activeDays as real) == goalMetDays as real;
      q * 100.0
    else 0.0
  }

  datatype MonthStats = MonthStats(
    totalLogged: nat,
    activeDays: nat,
    goalMetDays: nat,
    daysInMonth: nat,
    daysPassed: nat,
    remainingDays: nat,
    monthlyGoal: int,
    progressPercent: real,
    remainingGoal: nat,
    requiredDaily: Option<real>,
    goalMetPercent: real)

  /** Every figure of the cards for `task` in the viewed month. */
  function CardFigures(task: Task, today: Date, year: nat, month: Month): (s: MonthStats)
    requires ValidDate(today)
    ensures s.totalLogged == SumCounts(PeriodLogs(task.logs, MonthPrefix(year, month)))
    ensures s.activeDays == ActiveCount(PeriodLogs(task.logs, MonthPrefix(year, month)))
    ensures s.activeDays <= |PeriodLogs(task.logs, MonthPrefix(year, month))|
    ensures s.goalMetDays == GoalMetCount(PeriodLogs(task.logs, MonthPrefix(year, month)), task.dailyGoal)
    ensures task.dailyGoal >= 1 ==> s.goalMetDays <= s.activeDays && s.goalMetPercent <= 100.0
    ensures s.daysInMonth == DaysInMonth(year, month)
    ensures s.daysPassed == DaysPassed(today, year, month)
    ensures s.remainingDays == RemainingDays(today, year, month)
    ensures s.daysPassed + s.remainingDays == s.daysInMonth
    ensures s.monthlyGoal == 4 * WeeklyTarget(task.dailyGoal, task.weeklyDays)
    ensures s.progressPercent == UnclampedProgress(s.totalLogged, s.monthlyGoal)
    ensures s.remainingGoal == RemainingGoal(s.monthlyGoal, s.totalLogged)
    ensures s.requiredDaily == RequiredDaily(s.remainingGoal, s.remainingDays)
    ensures s.requiredDaily.None? <==> s.remainingDays == 0
    ensures s.goalMetPercent == GoalMetPercent(s.goalMetDays, s.activeDays)
  {
    var monthlyLogs := PeriodLogs(task.logs, MonthPrefix(year, month));
    var totalLogged := SumCounts(monthlyLogs);
    var activeDays := ActiveCount(monthlyLogs);
    var goalMetDays := GoalMetCount(monthlyLogs, task.dailyGoal);
    var daysPassed := DaysPassed(today, year, month);
    var remainingDays := RemainingDays(today, year, month);
    var monthlyGoal := MonthlyGoal(task.dailyGoal, task.weeklyDays);
    var remainingGoal := RemainingGoal(monthlyGoal, totalLogged);
    ActiveCountAtMostLength(monthlyLogs);
    DaysSplitMonth(today, year, month);
    assert task.dailyGoal >= 1 ==> goalMetDays <= activeDays by {
      if task.dailyGoal >= 1 {
        GoalMetAtMostActive(monthlyLogs, task.dailyGoal);
      }
    }
    MonthStats(totalLogged, activeDays, goalMetDays, DaysInMonth(year, month), daysPassed, remainingDays,
               monthlyGoal, UnclampedProgress(totalLogged, monthlyGoal), remainingGoal,
               RequiredDaily(remainingGoal, remainingDays), GoalMetPercent(goalMetDays, activeDays))
  }

  /** The cards count a month's active entries while the integrated
      dashboard counts distinct dates with a positive count; for one task
      with a valid log the two agree. */
  lemma CardsAgreeWithDashboard(task: Task, today: Date, year: nat, month: Month)
    requires ValidDate(today) && ValidLogs(task.logs)
    ensures CardFigures(task, today, year, month).activeDays ==
              |Dashboard.ActiveKeys([task], Dashboard.FilterPrefix(Dashboard.Monthly, year, month))|
  {
    var prefix := MonthPrefix(year, month);
    assert [task][..0] == [];
    PeriodLogsUnique(task.logs, prefix);
    Dashboard.ActiveKeysOfExact(PeriodLogs(task.logs, prefix));
  }
}
