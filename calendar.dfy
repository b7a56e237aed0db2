/** The month calendar of one task: the grid of leading blanks and day
    numbers, each day cell's count and flags, and the -1/+1 controls that
    feed the log's delta protocol. */
module Calendar {
  import opened Dates
  import opened Types
  import opened LogCollection
  import opened Arith

  /** A grid slot: a blank before the first weekday of the month, or a day
      of the month. */
  datatype Slot = Blank | Day(day: nat)

  /** The `days` array: `firstDayOfMonth` blanks (the weekday of the 1st,
      0 for Sunday) followed by the days 1..daysInMonth in order. */
  method BuildDays(firstDayOfMonth: nat, daysInMonth: nat) returns (days: seq<Slot>)
    ensures |days| == firstDayOfMonth + daysInMonth
    ensures forall i :: 0 <= i < firstDayOfMonth ==> days[i] == Blank
    ensures forall i :: firstDayOfMonth <= i < |days| ==> days[i] == Day(i - firstDayOfMonth + 1)
  {
    days := [];
    var i := 0;
    while i < firstDayOfMonth
      invariant 0 <= i <= firstDayOfMonth
      invariant |days| == i
      invariant forall k :: 0 <= k < i ==> days[k] == Blank
    {
      days := days + [Blank];
      i := i + 1;
    }
    var d := 1;
    while d <= daysInMonth
      invariant 1 <= d <= daysInMonth + 1
      invariant |days| == firstDayOfMonth + d - 1
      invariant forall k :: 0 <= k < firstDayOfMonth ==> days[k] == Blank
      invariant forall k :: firstDayOfMonth <= k < |days| ==> days[k] == Day(k - firstDayOfMonth + 1)
    {
      days := days + [Day(d)];
      d := d + 1;
    }
  }

  /** Every day in the grid of a month exists on the calendar, and every
      date of the month appears in the grid exactly at its offset. */
  lemma GridDaysValid(days: seq<Slot>, firstDayOfMonth: nat, year: nat, month: Month)
    requires |days| == firstDayOfMonth + DaysInMonth(year, month)
    requires forall i :: 0 <= i < firstDayOfMonth ==> days[i] == Blank
    requires forall i :: firstDayOfMonth <= i < |days| ==> days[i] == Day(i - firstDayOfMonth + 1)
    ensures forall i :: 0 <= i < |days| && days[i].Day? ==> ValidDate(Date(year, month, days[i].day))
    ensures forall d :: 1 <= d <= DaysInMonth(year, month) ==> days[firstDayOfMonth + d - 1] == Day(d)
  {
    forall d | 1 <= d <= DaysInMonth(year, month)
      ensures days[firstDayOfMonth + d - 1] == Day(d)
    {
      var i := firstDayOfMonth + d - 1;
      assert firstDayOfMonth <= i < |days|;
    }
  }

  /** `getLogForDay` compares the stored key strings with `===`; because keys
      are injective, the first entry with an equal key is exactly the first
      entry with an equal date, so a cell's count is `CountOf`. */
  lemma KeyLookupIsDateLookup(logs: seq<DailyLog>, d: Date)
    ensures IndexOf(logs, d) >= 0 ==> Key(logs[IndexOf(logs, d)].date) == Key(d)
    ensures forall j :: 0 <= j < |logs| && (IndexOf(logs, d) < 0 || j < IndexOf(logs, d)) ==>
              Key(logs[j].date) != Key(d)
  {
    forall j | 0 <= j < |logs| && (IndexOf(logs, d) < 0 || j < IndexOf(logs, d))
      ensures Key(logs[j].date) != Key(d)
    {
      if Key(logs[j].date) == Key(d) {
        KeyInjective(logs[j].date, d);
      }
    }
  }

  /** What one day cell shows. */
  datatype DayCell = DayCell(key: string, count: nat, isToday: bool, isFuture: bool, isGoalMet: bool)

  /** The cell of `day` in (year, month) for `task`, with `today` the current
      date (compared at midnight). */
  function Cell(task: Task, year: nat, month: Month, day: nat, today: Date): (c: DayCell)
    ensures c.key == Key(Date(year, month, day))
    ensures c.isToday <==> today == Date(year, month, day)
    ensures c.isFuture <==> Before(today, Date(year, month, day))
    ensures c.isFuture ==> !c.isToday
    ensures c.isGoalMet <==> c.count >= task.dailyGoal
    ensures forall l :: l in task.logs && l.date == Date(year, month, day) && UniqueDates(task.logs) ==> c.count == l.count
    ensures (forall l :: l in task.logs ==> l.date != Date(year, month, day)) ==> c.count == 0
  {
    var date := Date(year, month, day);
    var key := Key(date);
    var count := CountOf(task.logs, date);
    CellCount(task.logs, date);
    KeysEqual(today, date);
    DayCell(key, count, Key(today) == key, Before(today, date), count >= task.dailyGoal)
  }

  /** `todayStr === dateStr` compares dates. */
  lemma KeysEqual(a: Date, b: Date)
    ensures Key(a) == Key(b) <==> a == b
  {
    if Key(a) == Key(b) {
      KeyInjective(a, b);
    }
  }

  lemma CellCount(logs: seq<DailyLog>, date: Date)
    ensures forall l :: l in logs && l.date == date && UniqueDates(logs) ==> CountOf(logs, date) == l.count
    ensures (forall l :: l in logs ==> l.date != date) ==> CountOf(logs, date) == 0
  {
    forall l | l in logs && l.date == date && UniqueDates(logs)
      ensures CountOf(logs, date) == l.count
    {
      var i :| 0 <= i < |logs| && logs[i] == l;
      CountOfAt(logs, i);
    }
    if forall l :: l in logs ==> l.date != date {
      CountOfAbsent(logs, date);
    }
  }

  /** A press of one of a cell's edit buttons: the delta sent for its date. */
  datatype Edit = Edit(date: Date, delta: int)

  /** The edit buttons of a cell: -1 and +1 for its own date, and none at
      all on a future date. */
  function Controls(year: nat, month: Month, day: nat, today: Date): (r: seq<Edit>)
    ensures Before(today, Date(year, month, day)) <==> r == []
    ensures forall e :: e in r ==> e.date == Date(year, month, day) && (e.delta == -1 || e.delta == 1)
    ensures r != [] ==> Edit(Date(year, month, day), -1) in r && Edit(Date(year, month, day), 1) in r
  {
    var date := Date(year, month, day);
    if Before(today, date) then [] else [Edit(date, -1), Edit(date, 1)]
  }

  /** A button press moves the cell's own count by one, never below zero,
      keeps the log valid, and leaves every other date's count alone. */
  lemma {:induction false} EditEffect(logs: seq<DailyLog>, e: Edit, d: Date)
    requires ValidLogs(logs) && (e.delta == -1 || e.delta == 1)
    ensures ValidLogs(ApplyDelta(logs, e.date, e.delta))
    ensures d == e.date && e.delta == 1 ==> CountOf(ApplyDelta(logs, e.date, e.delta), d) == CountOf(logs, d) + 1
    ensures d == e.date && e.delta == -1 ==> CountOf(ApplyDelta(logs, e.date, e.delta), d) == Max(0, CountOf(logs, d) - 1)
    ensures d != e.date ==> CountOf(ApplyDelta(logs, e.date, e.delta), d) == CountOf(logs, d)
  {
    ApplyDeltaPreservesValid(logs, e.date, e.delta);
    ApplyDeltaCount(logs, e.date, e.delta, d);
  }
}
