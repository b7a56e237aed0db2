/** The monthly performance chart of one task: one point per day of the
    viewed month with the day's count against the daily goal. */
module Chart {
  import opened Dates
  import opened Types
  import opened LogCollection

  /** One chart point: the day number as axis label, the full date key,
      the day's count and the task's daily goal. */
  datatype Point = Point(dayLabel: string, fullDate: string, count: nat, goal: int)

  /** The record pushed for `day`. */
  function PointOf(task: Task, year: nat, month: Month, day: nat): (pt: Point)
    ensures StartsWith(pt.fullDate, MonthPrefix(year, month))
    ensures pt.goal == task.dailyGoal
    ensures pt.count > 0 ==> exists i :: 0 <= i < |task.logs| && task.logs[i].date == Date(year, month, day)
  {
    var date := Date(year, month, day);
    Point(NatToString(day), Key(date), CountOf(task.logs, date), task.dailyGoal)
  }

  /** `displayData`: the points for days 1..DaysInMonth(year, month) in order. */
  method DisplayData(task: Task, year: nat, month: Month) returns (data: seq<Point>)
    ensures |data| == DaysInMonth(year, month)
    ensures forall i :: 0 <= i < |data| ==> data[i].dayLabel == NatToString(i + 1)
    ensures forall i :: 0 <= i < |data| ==> data[i].fullDate == Key(Date(year, month, i + 1))
    ensures forall i :: 0 <= i < |data| ==> data[i].count == CountOf(task.logs, Date(year, month, i + 1))
    ensures forall i :: 0 <= i < |data| ==> data[i].goal == task.dailyGoal
  {
    var daysInMonth := DaysInMonth(year, month);
    data := [];
    var i := 1;
    while i <= daysInMonth
      invariant 1 <= i <= daysInMonth + 1
      invariant |data| == i - 1
      invariant forall k :: 0 <= k < |data| ==> data[k] == PointOf(task, year, month, k + 1)
    {
      data := data + [PointOf(task, year, month, i)];
      i := i + 1;
    }
  }

  /** The points' date keys are distinct, and each lies under the month's `YYYY-MM` prefix, so the chart
      shows exactly the days the monthly filters count. */
  lemma PointsCoverMonth(data: seq<Point>, year: nat, month: Month)
    requires |data| == DaysInMonth(year, month)
    requires forall i :: 0 <= i < |data| ==> data[i].fullDate == Key(Date(year, month, i + 1))
    ensures forall i, j :: 0 <= i < j < |data| ==> data[i].fullDate != data[j].fullDate
    ensures forall i :: 0 <= i < |data| ==> StartsWith(data[i].fullDate, MonthPrefix(year, month))
  {
    forall i, j | 0 <= i < j < |data|
      ensures data[i].fullDate != data[j].fullDate
    {
      if data[i].fullDate == data[j].fullDate {
        KeyInjective(Date(year, month, i + 1), Date(year, month, j + 1));
      }
    }
    forall i | 0 <= i < |data|
      ensures StartsWith(data[i].fullDate, MonthPrefix(year, month))
    {
      MonthPrefixMatch(Date(year, month, i + 1), year, month);
    }
  }
}
