/** The records shared by every component: a task, its daily log entries,
    the four-section analysis result and a registered user. */
module Types {
  import opened Dates
  import opened Wrappers

  /** One day's recorded completion count; `date` is kept as a `Date` whose
      string form `Key(date)` is the stored `YYYY-MM-DD` text. */
  datatype DailyLog = DailyLog(date: Date, count: nat)

  /** A tracked recurring goal. `dailyGoal` and `weeklyDays` come from
      `parseInt` of form fields, so any integer can appear; `startDate` and
      `endDate` are the raw `YYYY-MM-DD` strings of the date inputs. */
  datatype Task = Task(
    id: string,
    name: string,
    dailyGoal: int,
    weeklyDays: int,
    startDate: string,
    endDate: string,
    logs: seq<DailyLog>,
    createdBy: string)

  /** The four bullet-point sections produced for a report. */
  datatype AnalysisResult = AnalysisResult(
    basicAnalysis: seq<string>,
    goalPerformance: seq<string>,
    averageAndPrediction: seq<string>,
    suggestions: seq<string>,
    timestamp: int)

  /** A registered user; the password is absent on session records. */
  datatype User = User(email: string, name: string, password: Option<string>)
}
