/** The new-task form: the weekly and monthly projection shown while the
    goal fields are edited, and the task created on submit. The two number
    fields are held as the result of `parseInt` on their text: `None` when
    the text is not a number. */
module TaskForm {
  import opened Wrappers
  import opened Types
  import opened Goals

  datatype Form = Form(
    name: string,
    dailyGoal: Option<int>,
    weeklyDays: Option<int>,
    startDate: string,
    endDate: string)

  /** `parseInt(x) || 0`: an unparsable field counts as 0. */
  function OrZero(v: Option<int>): (r: int)
    ensures v.None? ==> r == 0
    ensures v.Some? ==> r == v.value
  {
    v.GetOr(0)
  }

  /** The projection panel: the weekly total and the four-week monthly total. */
  datatype Projection = Projection(weeklyTotal: int, monthlyTotal: int)

  function Project(form: Form): (p: Projection)
    ensures p.weeklyTotal == OrZero(form.dailyGoal) * OrZero(form.weeklyDays)
    ensures p.monthlyTotal == 4 * p.weeklyTotal
    ensures form.dailyGoal.None? || form.weeklyDays.None? ==> p == Projection(0, 0)
  {
    var weeklyTotal := OrZero(form.dailyGoal) * OrZero(form.weeklyDays);
    Projection(weeklyTotal, weeklyTotal * 4)
  }

  /** `handleSubmit`: no task for an empty name; otherwise a task carrying
      the form's values, the fresh id, no logs and the current user as its
      creator, after which only the name field is cleared. */
  function Submit(form: Form, freshId: string, currentUser: string): (r: (Option<Task>, Form))
    requires form.dailyGoal.Some? && form.weeklyDays.Some?
    ensures form.name == "" <==> r.0.None?
    ensures form.name == "" ==> r.1 == form
    ensures r.0.Some? ==>
              r.0.value.id == freshId && r.0.value.name == form.name &&
              r.0.value.dailyGoal == form.dailyGoal.value && r.0.value.weeklyDays == form.weeklyDays.value &&
              r.0.value.startDate == form.startDate && r.0.value.endDate == form.endDate &&
              r.0.value.logs == [] && r.0.value.createdBy == currentUser
    ensures r.0.Some? ==> r.1.name == "" && r.1.(name := form.name) == form
  {
    if form.name == "" then (None, form)
    else
      var task := Task(freshId, form.name, form.dailyGoal.value, form.weeklyDays.value,
                       form.startDate, form.endDate, [], currentUser);
      (Some(task), form.(name := ""))
  }

  /** The monthly total previewed before submitting is the monthly goal the
      created task is then measured against. */
  lemma ProjectionMatchesTask(form: Form, freshId: string, currentUser: string)
    requires form.dailyGoal.Some? && form.weeklyDays.Some? && form.name != ""
    ensures var t := Submit(form, freshId, currentUser).0.value;
            Project(form).monthlyTotal == MonthlyGoal(t.dailyGoal, t.weeklyDays) &&
            Project(form).weeklyTotal == WeeklyTarget(t.dailyGoal, t.weeklyDays)
  {
  }
}
