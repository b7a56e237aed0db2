/** The task edit dialog: its form is loaded from the task being edited
    and saved back as a copy of that task with the five editable fields
    replaced. The number fields hold `Number(value)` of their inputs, so an
    empty field is 0. */
module TaskEdit {
  import opened Wrappers
  import opened Types

  datatype EditForm = EditForm(
    name: string,
    dailyGoal: int,
    weeklyDays: int,
    startDate: string,
    endDate: string)

  /** The form before any task was loaded. */
  const InitialForm: EditForm := EditForm("", 1, 1, "", "")

  /** The effect on the form of receiving `task`: its five editable fields
      are copied in; with no task the form keeps what it had. */
  function LoadForm(form: EditForm, task: Option<Task>): (r: EditForm)
    ensures task.None? ==> r == form
    ensures task.Some? ==>
              r.name == task.value.name && r.dailyGoal == task.value.dailyGoal &&
              r.weeklyDays == task.value.weeklyDays && r.startDate == task.value.startDate &&
              r.endDate == task.value.endDate
  {
    match task
    case None => form
    case Some(t) => EditForm(t.name, t.dailyGoal, t.weeklyDays, t.startDate, t.endDate)
  }

  /** `handleSubmit`: nothing while the dialog is closed or has no task;
      otherwise the task with the form's five fields, its id, logs and
      creator kept. */
  function SubmitEdit(isOpen: bool, task: Option<Task>, form: EditForm): (r: Option<Task>)
    ensures r.Some? <==> isOpen && task.Some?
    ensures r.Some? ==>
              r.value.id == task.value.id && r.value.logs == task.value.logs &&
              r.value.createdBy == task.value.createdBy
    ensures r.Some? ==>
              r.value.name == form.name && r.value.dailyGoal == form.dailyGoal &&
              r.value.weeklyDays == form.weeklyDays && r.value.startDate == form.startDate &&
              r.value.endDate == form.endDate
  {
    if !isOpen || task.None? then None
    else
      Some(task.value.(name := form.name, dailyGoal := form.dailyGoal, weeklyDays := form.weeklyDays,
                       startDate := form.startDate, endDate := form.endDate))
  }

  /** Opening a task and saving without edits gives back the same task. */
  lemma LoadThenSubmitIsIdentity(form: EditForm, task: Task)
    ensures SubmitEdit(true, Some(task), LoadForm(form, Some(task))) == Some(task)
  {
  }
}
