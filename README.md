# TaskFlow habit tracker — a Dafny model of its goal and log logic

TaskFlow is a React app for tracking recurring tasks. Each task has a daily
goal, a number of days per week and a sparse log of `YYYY-MM-DD` entries with
completion counts. This project models the logic behind the screens:

- the `+1`/`-1` delta protocol that edits a task's log, and the task list and
  selection state of the application shell;
- the integrated dashboard: month/year totals over all tasks, distinct active
  days, clamped progress, the weekly and monthly bar buckets, the daily trend
  and period navigation;
- the single-task summary cards: monthly totals, days passed and remaining
  against today, required daily pace;
- the numeric summary that the AI report is written from, the per-task
  totals of the integrated report, and the fixed reports used when the model
  call fails;
- the month calendar grid, its day cells and edit controls, and the chart's
  per-day points;
- the new-task form, the edit dialog and the `**…**` highlighter of report
  lines;
- the browser-storage user registry (registration, login, session).

Modules:

| module | source | what it holds |
|---|---|---|
| `Wrappers`, `Arith`, `Seqs` | — | Option/Result, `max`/`min`, `map` over sequences |
| `Dates` | — | dates, their zero-padded keys, leap years, month navigation |
| `Types` | `types.ts` | `DailyLog`, `Task`, `AnalysisResult`, `User` |
| `LogCollection` | `App.tsx` | the log invariant, lookup, the delta protocol, period filters |
| `Goals` | shared | weekly/monthly/yearly goals, remaining goal, required pace |
| `App` | `App.tsx` | class `TaskBoard`: tasks and selected id, its handlers |
| `Dashboard` | `components/IntegratedDashboard.tsx` | aggregation, buckets, trend, navigation |
| `Stats` | `components/StatsCards.tsx` | the four monthly cards |
| `Analysis` | `services/geminiService.ts` | report figures and fallback reports |
| `Calendar` | `components/Calendar.tsx` | grid, cells, controls |
| `Chart` | `components/ChartSection.tsx` | per-day chart points |
| `TaskForm` | `components/TaskForm.tsx` | projection and task creation |
| `TaskEdit` | `components/TaskEditModal.tsx` | form load and record update |
| `Highlight` | `components/AIAnalysis.tsx` | capturing split and colour choice |
| `Auth` | `services/authService.ts` | class `AuthStore` over the two storage entries |

Representation choices:

- A stored date string is a `Date` value whose key `Key(d)` is the
  `YYYY-MM-DD` text. Period filters test the key string with a prefix, as the
  source does, and lemmas relate those tests to year and month equality.
- "Now" is a parameter. It is a calendar `Date` for the cards and the
  calendar, and millisecond timestamps for the report figures.
- Percentages, averages and the daily pace are exact `real` ratios.
- Counts are `nat`. Goals are `int`, because `parseInt` of a form field can
  be any integer.
- The app shell and the user registry change state in place, so each is a
  class with fields. The dashboard's accumulation loops, the bucket loops,
  the trend loop, the calendar grid loops and the chart loop are methods with
  loop invariants, each proved against a specification function.

## Model

| member | source | states |
|---|---|---|
| Dates.DaysInYear | components/IntegratedDashboard.tsx:49-50 | a year has 366 days exactly when the Gregorian leap-year rule holds, otherwise 365 |
| Dates.DaysInMonth | components/IntegratedDashboard.tsx:48 | the last day of the month is 28–31; it is 29 exactly for February of a leap year and 28 exactly for February of a common year |
| Dates.MonthsMakeYear | components/IntegratedDashboard.tsx:48-50 | the twelve month lengths add up to the year length, so the month and year views measure the same calendar |
| Dates.NatToString | components/ChartSection.tsx:41 | `String(n)` is a non-empty run of digits, one digit exactly below 10, with no leading zero unless n is 0 |
| Dates.Pad2 | components/Calendar.tsx:40 | `padStart(2, '0')` gives at least two digits, exactly two below 100 |
| Dates.Key | components/Calendar.tsx:40 | the `YYYY-MM-DD` key starts with the date's `YYYY-` and zero-padded `YYYY-MM` prefixes and is exactly three characters longer than the month prefix when the day is below 100 |
| Dates.NatToStringInjective | components/ChartSection.tsx:41 | different numbers print differently |
| Dates.Pad2Injective | components/Calendar.tsx:40 | different numbers pad differently |
| Dates.YearPrefixMatch | components/IntegratedDashboard.tsx:53 | a key starts with `YYYY-` exactly when the date is in that year |
| Dates.MonthPrefixMatch | components/StatsCards.tsx:13-16 | a key starts with the zero-padded `YYYY-MM` exactly when the date is in that month |
| Dates.KeyInjective | components/Calendar.tsx:39-41 | distinct dates have distinct keys, so looking up by key is looking up by date |
| Dates.PrevMonth | components/Calendar.tsx:23-25 | going back one month moves one step back on the month timeline, carrying into the previous year from January |
| Dates.NextMonth | components/Calendar.tsx:27-29 | going forward one month moves one step forward, carrying into the next year from December |
| Dates.MonthIndexInjective | components/ChartSection.tsx:25-31 | a viewed month is determined by its place on the timeline |
| Dates.PrevNextInverse | components/ChartSection.tsx:25-31 | back-then-forward and forward-then-back both return to the same month |
| LogCollection.IndexOf | App.tsx:149 | `findIndex` gives the first entry with the date, or -1 exactly when no entry has it |
| LogCollection.CountOf | components/Calendar.tsx:39-41 | `log ? log.count : 0`: a positive reading comes from an entry stored for that date with that count |
| LogCollection.CountOfAt | components/Calendar.tsx:70-71 | in a log with unique dates, the count read for an entry's date is that entry's count |
| LogCollection.CountOfAbsent | components/Calendar.tsx:71 | a date with no entry reads as 0 |
| LogCollection.ApplyDelta | App.tsx:149-162 | a delta touches only entries of its own date; an absent date with delta ≤ 0 leaves the log unchanged |
| LogCollection.ApplyDeltaPlacement | App.tsx:152-161 | a surviving entry gets count + delta at its own position; an entry whose count reaches 0 is spliced out; a new entry `{date, delta}` is appended last |
| LogCollection.ApplyDeltaPreservesValid | App.tsx:149-162 | if dates were unique and every count at least 1, both still hold after any delta |
| LogCollection.ApplyDeltaCount | App.tsx:152-162 | read as a date→count map, a delta sets its own date to max(0, old + delta) and leaves every other date unchanged |
| LogCollection.UpdateAtCount | App.tsx:158 | overwriting one entry's count changes only that date's count |
| LogCollection.RemoveAtCount | App.tsx:156 | splicing out one entry makes its date read 0 and leaves the others |
| LogCollection.AppendCount | App.tsx:161 | pushing an entry for an absent date makes it readable with its count |
| LogCollection.UpdateAtValid | App.tsx:158 | an in-place update with a positive count keeps the log valid |
| LogCollection.RemoveAtValid | App.tsx:156 | splicing keeps the log valid |
| LogCollection.AppendValid | App.tsx:161 | appending a positive entry for an absent date keeps the log valid |
| LogCollection.PlusThenMinusRestores | App.tsx:156-161 | +1 then -1 on a date without an entry restores the original log exactly |
| LogCollection.PlusPlusMinusLeavesOne | App.tsx:152-161 | +1, +1, -1 on an empty date leaves one valid entry with count 1 |
| LogCollection.PeriodLogs | components/StatsCards.tsx:16 | the filter never lengthens the log |
| LogCollection.PeriodLogsMembers | components/IntegratedDashboard.tsx:63 | the filter keeps exactly the entries whose key starts with the prefix |
| LogCollection.PeriodLogsAppend | components/StatsCards.tsx:16 | the filter distributes over concatenation, so the kept entries stay in log order |
| LogCollection.PeriodLogsUnique | components/StatsCards.tsx:16 | filtering a log with one entry per date leaves a log with one entry per date |
| LogCollection.MonthFilterSelects | components/StatsCards.tsx:13-16 | the zero-padded month filter keeps exactly the entries of that year and month |
| LogCollection.YearFilterSelects | services/geminiService.ts:142 | the `YYYY-` filter keeps exactly the entries of that year |
| LogCollection.SumCountsAppend | components/IntegratedDashboard.tsx:64 | the count sum of two logs joined is the sum of their sums |
| LogCollection.ActiveCountAtMostLength | services/geminiService.ts:64 | there are never more active entries than entries |
| LogCollection.GoalMetAtMostActive | components/StatsCards.tsx:19-20 | with a daily goal of at least 1, every goal-met entry is an active entry |
| LogCollection.ActiveCountOfPositive | components/StatsCards.tsx:19 | in a log that keeps the invariant, every entry is active |
| Goals.WeeklyTarget | components/IntegratedDashboard.tsx:70 | dailyGoal·weeklyDays: for 0..7 days between nothing and seven days' goals, and at least one day's goal when both are positive |
| Goals.MonthlyGoal | components/IntegratedDashboard.tsx:69-70 | a month is always four weekly targets, whatever its length, so at most 28 days' goals |
| Goals.YearlyGoal | components/IntegratedDashboard.tsx:72-73 | a year is always fifty-two weekly targets, i.e. thirteen monthly goals, at most 364 days' goals |
| Goals.RemainingGoal | components/IntegratedDashboard.tsx:91 | `max(0, goal - done)`: what is left plus what is done reaches the goal; it is exactly the gap below the goal and 0 once the goal is met |
| Goals.RequiredDaily | components/StatsCards.tsx:43 | no pace exactly when no days remain; otherwise a non-negative pace that, kept up for the remaining days, reaches the remaining goal |
| App.RemoveTask | App.tsx:118 | a task survives exactly when it was present and its id differs |
| App.RemoveTaskCounts | App.tsx:118 | each surviving task is kept exactly as many times as it occurred, and no task with the id is left |
| App.RemoveTaskHead | App.tsx:118-121 | the first survivor is the first task with a different id; the result is empty exactly when every task has the id |
| App.RemoveTaskAppend | App.tsx:118 | filtering distributes over concatenation, so the survivors keep their relative order |
| App.RemoveAbsentIsIdentity | App.tsx:118 | deleting an id no task has changes nothing, order included |
| App.ReplaceTask | App.tsx:137 | same length and ids at each position; every task with the edited id becomes the edited task, every other task is untouched |
| App.ReplaceThenFind | App.tsx:136-141 | after saving an edit of a listed task, looking its id up finds the edited version; an edit of an id no task has leaves the list unchanged |
| App.UpdateSelectedLogs | App.tsx:146-165 | only tasks with the selected id change, and only in their log, which takes the delta |
| App.UpdateSelectedPreservesValid | App.tsx:146-164 | every task's log stays valid after a delta |
| App.FirstId | App.tsx:64-68 | the first task's id, and none exactly when the list is empty |
| App.FindById | App.tsx:82 | `find`: the found task is the first one with that id; none found means no task has it |
| App.GoalHeader | App.tsx:285-287 | the header shows the daily goal, the weekly goal dailyGoal·weeklyDays and four weekly goals as the monthly goal |
| App.TaskBoard.constructor | App.tsx:59-75 | the board starts empty with no selection |
| App.TaskBoard.SelectedTask | App.tsx:82 | the selected task is the first in the list with the selected id; none means no selection or no task with that id |
| App.TaskBoard.LoadTasks | App.tsx:59-75 | a loaded list replaces the tasks and selects its first task (or none); a failed load empties the list and keeps the selection |
| App.TaskBoard.AddTask | App.tsx:108-115 | the task is appended and selected only when nothing was selected; log validity is kept |
| App.TaskBoard.DeleteTask | App.tsx:117-124 | every task with the id is removed and the survivors are RemoveTask of the old list; when the deleted task was selected, the selection becomes the first task of the old list with another id, or none; otherwise it is kept |
| App.TaskBoard.SaveEditedTask | App.tsx:136-141 | the list becomes ReplaceTask of the old list, so every task with the edited id is the edited task and the others are untouched; the selection is kept |
| App.TaskBoard.UpdateLog | App.tsx:143-169 | without a selection nothing happens; otherwise only the selected task's log takes the delta; validity and selection are kept |
| App.TaskBoard.Logout | App.tsx:96-100 | the task list is emptied; the selection is left as it was |
| Dashboard.Accumulate | components/IntegratedDashboard.tsx:56-88 | the loop over tasks computes the total done, the total goal, the set of active date keys and the per-task rows of their specifications |
| Dashboard.AccumulateStep | components/IntegratedDashboard.tsx:61-88 | each task adds its own done, goal, active keys and row |
| Dashboard.AddActiveKeys | components/IntegratedDashboard.tsx:79-81 | the inner loop adds the keys of exactly the entries with a positive count |
| Dashboard.Aggregate | components/IntegratedDashboard.tsx:47-96 | totals over the filtered period; active days are the distinct active dates, at most the per-task sum; remaining goal, period length, average and progress follow from the totals |
| Dashboard.AverageDaily | components/IntegratedDashboard.tsx:95 | 0 with no active days, otherwise the average that, times the active days, gives the total done |
| Dashboard.ProgressFacts | components/IntegratedDashboard.tsx:96 | the clamped ratio is within 0..100, is 100 exactly when the goal is met, and is otherwise the exact percentage |
| Dashboard.ProgressPercent | components/IntegratedDashboard.tsx:96 | within 0..100; 0 without a positive goal; 100 exactly when the goal is met; otherwise done/goal·100 |
| Dashboard.ActiveDaysAtMostSum | components/IntegratedDashboard.tsx:58-90 | the distinct active days are at most the sum of each task's active days |
| Dashboard.ActiveKeysOfBound | components/IntegratedDashboard.tsx:79-81 | one task's active keys are at most its active entries |
| Dashboard.ActiveKeysOfMembers | components/IntegratedDashboard.tsx:79-81 | every key in the set comes from an entry with a positive count |
| Dashboard.ActiveKeysOfExact | components/IntegratedDashboard.tsx:79-90 | for a log with one entry per date, the set's size equals the number of active entries |
| Dashboard.ActiveDaysAtMostPeriodDays | components/IntegratedDashboard.tsx:90-92 | with valid dates the distinct active days never exceed the days in the period |
| Dashboard.ActiveKeysInPeriod | components/IntegratedDashboard.tsx:63-80 | every active key lies among the keys of the period's days |
| Dashboard.ActiveKeysOfInPeriod | components/IntegratedDashboard.tsx:63-80 | one task's active keys lie among the period's keys |
| Dashboard.MonthKeysCard | components/IntegratedDashboard.tsx:48 | a month has at most as many keys as days |
| Dashboard.YearKeysCard | components/IntegratedDashboard.tsx:50 | the first n months have at most as many keys as their days |
| Dashboard.InMonthKeys | components/IntegratedDashboard.tsx:53 | every day of a month has its key among the month's keys |
| Dashboard.InYearKeys | components/IntegratedDashboard.tsx:53 | every valid date of a year has its key among the year's keys |
| Dashboard.BarGoal | components/IntegratedDashboard.tsx:103-118 | each bar's goal is the total goal spread evenly over the bars |
| Dashboard.Bars | components/IntegratedDashboard.tsx:103-118 | one bar per bucket, with its completed value and the even share of the goal |
| Dashboard.AddWeekSums | components/IntegratedDashboard.tsx:110-114 | a log with a day-0 entry raises the `periodData[-1]` error; otherwise each week bucket grows by the log's counts for that week |
| Dashboard.WeekIndex | components/IntegratedDashboard.tsx:112 | `min(4, floor((day-1)/7))`: day 0 gives -1; days 1..35 fall in the week w with 7w < day ≤ 7w+7, capped at 4, so days 29–31 join week 4 |
| Dashboard.WeekBuckets | components/IntegratedDashboard.tsx:105-115 | fails exactly when some period entry has day 0; otherwise bucket w is the counts of weeks ⌊(day-1)/7⌋ = w, days 29–31 in the fifth |
| Dashboard.ThrowExtends | components/IntegratedDashboard.tsx:109-115 | once an earlier task raised the error, the whole loop has raised it |
| Dashboard.WeeklyBars | components/IntegratedDashboard.tsx:105-115 | the five weekly bars: their completed week buckets and a fifth of the goal each |
| Dashboard.WeekSumsCover | components/IntegratedDashboard.tsx:111-113 | without day-0 entries the five week sums of a log add up to its total |
| Dashboard.WeekBucketsSumToTotal | components/IntegratedDashboard.tsx:105-115 | the five weekly buckets add up to the month's total done |
| Dashboard.AddMonthSums | components/IntegratedDashboard.tsx:121-126 | each month bucket grows by the log's counts for that month; months outside 1..12 go nowhere |
| Dashboard.MonthlyBars | components/IntegratedDashboard.tsx:116-128 | twelve bars, bar m-1 the year's counts of month m, each a twelfth of the goal |
| Dashboard.MonthSumsCover | components/IntegratedDashboard.tsx:123-125 | when every month is 1..12, a log's twelve month sums add up to its total |
| Dashboard.MonthBucketsSumToTotal | components/IntegratedDashboard.tsx:116-128 | the twelve monthly buckets add up to the year's total done |
| Dashboard.DailyTrend | components/IntegratedDashboard.tsx:135-145 | one value per day of the month, each the sum over tasks of that date's count |
| Dashboard.HandlePrev | components/IntegratedDashboard.tsx:24-30 | one month back in the monthly view, twelve in the yearly view |
| Dashboard.HandleNext | components/IntegratedDashboard.tsx:32-38 | one month forward in the monthly view, twelve in the yearly view |
| Dashboard.HandlePrevNextInverse | components/IntegratedDashboard.tsx:24-38 | previous and next undo each other in both views |
| Stats.DaysPassed | components/StatsCards.tsx:24-33 | today's day-of-month for the current month, the month length for a past month, 0 for a future month |
| Stats.RemainingDays | components/StatsCards.tsx:41 | the rest of the current month, 0 for a past month, the whole month for a future month |
| Stats.DaysSplitMonth | components/StatsCards.tsx:26-41 | days passed plus days remaining is the month length in every case |
| Stats.UnclampedProgress | components/StatsCards.tsx:38 | 0 without a positive goal, otherwise exactly done/goal·100, going above 100 exactly when the goal is exceeded |
| Stats.GoalMetPercent | components/StatsCards.tsx:82 | 0 with no active days, otherwise exactly goalMet/active·100, within 0..100 when goal-met days do not exceed active days |
| Stats.CardFigures | components/StatsCards.tsx:10-43 | every card figure is the StatsCards definition for the viewed month: total, active and goal-met days of the month filter; days passed and remaining by the three-way rule against today; the ×4 monthly goal; unclamped progress; remaining goal = max(0, goal − logged); pace = remaining goal / remaining days, none when no day remains; goal-met share of active days |
| Stats.CardsAgreeWithDashboard | components/StatsCards.tsx:13-19 | for one task with a valid log, the cards' count of positive entries in the month equals the integrated dashboard's count of distinct active dates for that month |
| Analysis.CeilDiv | services/geminiService.ts:58-59 | `Math.ceil(a / b)`: the least multiple count of b covering a |
| Analysis.TotalDays | services/geminiService.ts:58 | at least 1; 1 when the end is not after the start; otherwise the whole days spanned plus one |
| Analysis.DaysPassed | services/geminiService.ts:59 | 0 until the start; afterwards the days begun since the start |
| Analysis.TotalDaysOfWholeDays | services/geminiService.ts:58 | a period of exactly k days counts k + 1 days, both ends included |
| Analysis.TimeProgress | services/geminiService.ts:60 | within 0..100, 100 exactly when the period is over, otherwise exactly passed/total·100 |
| Analysis.Consistency | services/geminiService.ts:67 | 0 before any day passed, otherwise exactly active/passed·100, never negative |
| Analysis.RoundHalfUp | services/geminiService.ts:71 | `Math.round(n / d)`: the nearest integer, halves rounded up |
| Analysis.GoalForWholeWeeks | services/geminiService.ts:71-75 | a whole number of weeks expects exactly that many weekly targets |
| Analysis.GoalForDays | services/geminiService.ts:71 | `Math.round(days/7·weeklyTarget)`: the integer nearest days·weeklyTarget/7, halves upwards |
| Analysis.GoalForDaysMonotone | services/geminiService.ts:71-75 | with a non-negative weekly target, more days never expect less |
| Analysis.Figures | services/geminiService.ts:53-78 | each report figure is tied to the timestamps and the log: total days and days passed by ceiling day division, progress = min(100, passed/total·100), logged total and active entries, consistency, expected-to-date and total goal as rounded weekly-target shares, gap = logged − expected (may be negative), remaining goal = max(0, goal − logged), remaining days = max(0, total − passed), pace none exactly when no day remains |
| Analysis.ReportMatchesDashboard | services/geminiService.ts:136-145 | the report's period filter is the dashboard's filter for the same view |
| Analysis.ReportLinesAt | services/geminiService.ts:139-148 | one line per task, each with the task's name, its total in the period and its daily goal |
| Analysis.ReportLinesTotal | services/geminiService.ts:139-148 | the report's per-task totals add up to the dashboard's total done for the same period |
| Analysis.Outcome | services/geminiService.ts:118-131 | a reply is returned with the current timestamp; without one, the four one-line fallback sections |
| Analysis.AnalyzeTask | services/geminiService.ts:119-131 | the single-task report is the reply stamped with now, or the fallback headed "분석 중 오류 발생" with the three fixed placeholder sections |
| Analysis.AnalyzeIntegrated | services/geminiService.ts:180-192 | the integrated report is the reply stamped with now, or the fallback headed "종합 분석 실패" with the three fixed placeholder sections |
| Calendar.BuildDays | components/Calendar.tsx:31-37 | firstDayOfMonth blanks, then the days 1..daysInMonth in order |
| Calendar.GridDaysValid | components/Calendar.tsx:16-37 | every day slot of the grid is a real date of the month, and day d sits at slot first + d − 1 |
| Calendar.KeyLookupIsDateLookup | components/Calendar.tsx:39-41 | finding by key string finds the same entry as finding by date |
| Calendar.Cell | components/Calendar.tsx:70-83 | the cell's key, count (the entry's, or 0 when none), today flag, future flag (never both) and goal-met flag (count ≥ daily goal) |
| Calendar.KeysEqual | components/Calendar.tsx:72-77 | two keys are equal exactly when their dates are |
| Calendar.CellCount | components/Calendar.tsx:70-71 | the count shown is the entry's count, or 0 when the date has no entry |
| Calendar.Controls | components/Calendar.tsx:114-128 | no controls exactly for future dates; otherwise a −1 and a +1 for that date and nothing else |
| Calendar.EditEffect | components/Calendar.tsx:114-128 | a control press keeps the log valid, adds 1 or takes 1 (not below 0) from its date, and changes no other date |
| Chart.PointOf | components/ChartSection.tsx:38-45 | a day's point has a key under the month's `YYYY-MM` prefix and the task's daily goal; a positive count comes from a stored entry for that date |
| Chart.DisplayData | components/ChartSection.tsx:34-46 | one point per day of the month: label `String(i)`, the zero-padded key, the date's count and the daily goal |
| Chart.PointsCoverMonth | components/ChartSection.tsx:38-42 | the points' keys are distinct and all under the month's `YYYY-MM` prefix |
| TaskForm.OrZero | components/TaskForm.tsx:37-38 | an unparsable field counts as 0 |
| TaskForm.Project | components/TaskForm.tsx:37-40 | weekly total dailyGoal·weeklyDays with unparsable fields as 0, monthly total four times that |
| TaskForm.Submit | components/TaskForm.tsx:17-34 | no task exactly for an empty name, form untouched; otherwise a task with the form's values, the fresh id, no logs and the current user as creator, and only the name is cleared |
| TaskForm.ProjectionMatchesTask | components/TaskForm.tsx:21-40 | the previewed weekly and monthly totals are the goals the created task is measured against |
| TaskEdit.LoadForm | components/TaskEditModal.tsx:19-27 | a task's five editable fields are copied into the form; without a task the form keeps its values |
| TaskEdit.SubmitEdit | components/TaskEditModal.tsx:29-41 | nothing when closed or without a task; otherwise the task with id, logs and creator kept and the five fields from the form |
| TaskEdit.LoadThenSubmitIsIdentity | components/TaskEditModal.tsx:19-40 | loading a task and saving without edits gives back the same task |
| Highlight.FindClose | components/AIAnalysis.tsx:12 | the lazy `.*?\*\*`: the first `**` after the opener, with no line terminator before it |
| Highlight.MatchAt | components/AIAnalysis.tsx:12 | a match starts and ends with `**` and is at least four characters |
| Highlight.NextMatch | components/AIAnalysis.tsx:12 | the leftmost match at or after a position; none exactly when no position matches |
| Highlight.SplitFrom | components/AIAnalysis.tsx:12 | the capturing split yields an odd number of parts: text, capture, text, …, text |
| Highlight.SplitPlainHasNoMatch | components/AIAnalysis.tsx:12 | no text part (even position), taken on its own, contains a `**…**` match |
| Highlight.SplitPlainSkipsNoMatch | components/AIAnalysis.tsx:12 | no match of the whole line starts inside a text part (even position): the split always takes the leftmost match, so together with the capture lemma the split is the only one possible |
| Highlight.SplitCapturesAreMatches | components/AIAnalysis.tsx:12 | each captured part (odd position) is the pattern's match at the offset where it stands in the line |
| Highlight.SplitConcat | components/AIAnalysis.tsx:12 | joining the parts gives back the text |
| Highlight.CapturesAreMarked | components/AIAnalysis.tsx:12-16 | every captured part starts and ends with `**` and has no line terminator or inner `**` |
| Highlight.Inner | components/AIAnalysis.tsx:17 | `slice(2, -2)` strips exactly the two markers from a marked part, and is empty for a part shorter than four |
| Highlight.ColourOf | components/AIAnalysis.tsx:19-26 | red for shortfall/warning words or a leading minus; otherwise green for good/achieved; otherwise yellow for needed/improve; otherwise blue |
| Highlight.RenderPart | components/AIAnalysis.tsx:16-30 | a part starting and ending with `**` shows its inner text in its colour; any other part shows unchanged in gray |
| Highlight.Render | components/AIAnalysis.tsx:12-34 | one span per split part, in order (an odd number), each the rendering of its part |
| Highlight.MarkedShowsInner | components/AIAnalysis.tsx:16-28 | a captured run is shown coloured and loses exactly its two markers |
| Highlight.LoneMarkerVanishes | components/AIAnalysis.tsx:12-17 | a line that is a lone `**` is one part, taken as marked, and shows as empty blue text |
| Highlight.RenderCaptures | components/AIAnalysis.tsx:12-30 | each capture of a line shows coloured and without its markers, at its own position |
| Auth.FindCredentials | services/authService.ts:25 | a user is found exactly when some stored user has that email and password |
| Auth.CredentialsSelectAccount | services/authService.ts:16-25 | with unique emails, the user found is the one stored under that email |
| Auth.AppendFreshKeepsUnique | services/authService.ts:16-19 | appending a user with a new email keeps emails unique |
| Auth.AuthStore.constructor | services/authService.ts:8-11 | a store with nothing written reads as no users and no session |
| Auth.AuthStore.GetUsers | services/authService.ts:8-11 | the stored list as stored, or [] when nothing is stored |
| Auth.AuthStore.SaveUser | services/authService.ts:13-21 | fails with the duplicate-email message exactly when the email is taken, store unchanged; otherwise the user is appended and the list grows by one |
| Auth.AuthStore.Login | services/authService.ts:23-33 | succeeds exactly when some stored user matches email and password; the session record carries that email and name and no password, and getCurrentUser then returns it; a failure leaves the session |
| Auth.AuthStore.Logout | services/authService.ts:35-37 | the session is removed, so getCurrentUser returns null; the users stay |
| Auth.AuthStore.GetCurrentUser | services/authService.ts:39-42 | exactly the stored session record (null when none), never carrying a password |

## Left out

- JSX rendering, recharts, lucide icons and every string label (`1주차`,
  `3월`, `toFixed` output): presentation only.
- The Gemini call, the prompt text, `JSON.parse` of the reply and the lazy
  client singleton: network I/O into a foreign library. The parsed reply is a
  parameter, and `None` stands for any failure.
- Clock reads, `new Date(...)` parsing and time zones: today's date, the
  millisecond timestamps of start, end and now, and the weekday of the 1st
  of the month are parameters.
- Negative years: dates and their keys have natural-number years, so a
  year before 0 (which `new Date` would accept) has no key in the model.
- The JavaScript `Date` constructor's mapping of years 0–99 to 1900–1999 is
  not modelled. Navigation works on the arithmetic month number.
- `toFixed` and IEEE floating point: percentages, averages and paces are exact
  reals. `Math.round` is applied to the exact rational.
- `crypto.randomUUID`: the fresh id is a parameter.
- Persistence of the task list (`saveTasks`, `loadUserTasks`,
  `saveUserTasks`). `App.tsx` calls these on `authService`, which does not
  define them; the loaded list is a parameter of `LoadTasks`, and `None`
  stands for a failed load.
- React effects and asynchronous races (the view-date reset on selection,
  the automatic analysis on view change, fire-and-forget saves).
- TaskForm.Submit: requires both number fields to parse as integers; a
  non-numeric field makes `parseInt` return NaN, which is not an integer
  and is not modelled.
- TaskEdit.EditForm holds `Number(value)` as an integer; fractional or
  non-numeric input is not modelled.
- Stats.CardFigures: `requiredDaily` is `None` where the card shows `'0'`.
- Analysis.Figures: `requiredDailyAvg` is `None` where the summary shows
  `"N/A"`.
- The yearly trend line reuses the twelve monthly bars' completed values.
  It is covered by `Dashboard.MonthlyBars` and has no member of its own.
- The calendar's today flag compares with today's local date, and its future
  flag compares the cell's midnight with today's midnight. Both are modelled
  on one injected `Date`.
- Auth.AuthStore.Valid: stored user JSON is assumed to have unique emails
  and a password-free session. Anything written to storage by other code is
  not modelled.
- Supabase configuration, settings, the auth form, the task list view,
  `index.tsx` and the build configuration: UI glue and configuration.
