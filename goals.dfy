/** The goal convention shared by every view: a weekly target of
    dailyGoal * weeklyDays, a month of exactly four weeks and a year of
    exactly fifty-two, whatever the calendar length of the period. */
module Goals {
  import opened Wrappers
  import opened Arith

  /** Units expected per week. */
  function WeeklyTarget(dailyGoal: int, weeklyDays: int): (r: int)
    ensures dailyGoal >= 0 && 0 <= weeklyDays <= 7 ==> 0 <= r <= 7 * dailyGoal
    ensures dailyGoal >= 1 && weeklyDays >= 1 ==> r >= dailyGoal
  {
    dailyGoal * weeklyDays
  }

  /** The monthly goal: four weekly targets. */
  function MonthlyGoal(dailyGoal: int, weeklyDays: int): (r: int)
    ensures r == 4 * WeeklyTarget(dailyGoal, weeklyDays)
    ensures dailyGoal >= 0 && 0 <= weeklyDays <= 7 ==> 0 <= r <= 28 * dailyGoal
  {
    WeeklyTarget(dailyGoal, weeklyDays) * 4
  }

  /** The yearly goal: fifty-two weekly targets. */
  function YearlyGoal(dailyGoal: int, weeklyDays: int): (r: int)
    ensures r == 13 * MonthlyGoal(dailyGoal, weeklyDays)
    ensures dailyGoal >= 0 && 0 <= weeklyDays <= 7 ==> 0 <= r <= 364 * dailyGoal
  {
    WeeklyTarget(dailyGoal, weeklyDays) * 52
  }

  /** `Math.max(0, goal - done)`: what is left to reach the goal, never
      negative. */
  function RemainingGoal(goal: int, done: nat): (r: nat)
    ensures r + done >= goal
    ensures done < goal ==> r + done == goal
    ensures done >= goal ==> r == 0
  {
    Max(0, goal - done)
  }

  /** The daily pace still required: the remaining goal spread over the
      remaining days, or `None` when no day is left (shown as '0' on the
      cards and as "N/A" in the analysis prompt). */
  function RequiredDaily(remainingGoal: nat, remainingDays: nat): (r: Option<real>)
    ensures r.None? <==> remainingDays == 0
    ensures r.Some? ==> r.value >= 0.0 && r.value * (remainingDays as real) == remainingGoal as real
  {
    if remainingDays > 0 then Some((remainingGoal as real) / (remainingDays as real)) else None
  }
}
