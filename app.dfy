/** The application's task state: the list of tasks and the selected task id,
    with the handlers that load, add, delete, edit and log against them. */
module App {
  import opened Wrappers
  import opened Dates
  import opened Types
  import opened LogCollection
  import opened Goals

  /** JavaScript truthiness of the selected id: both `null` and the empty
      string count as "nothing selected". */
  predicate HasSelection(sel: Option<string>) {
    sel.Some? && sel.value != ""
  }

  /** Every task's log satisfies the collection invariant. */
  predicate AllLogsValid(tasks: seq<Task>) {
    forall i :: 0 <= i < |tasks| ==> ValidLogs(tasks[i].logs)
  }

  /** `tasks.filter(t => t.id !== id)`. */
  function RemoveTask(tasks: seq<Task>, id: string): (r: seq<Task>)
    ensures |r| <= |tasks|
    ensures forall t :: t in r <==> t in tasks && t.id != id
  {
    if tasks == [] then []
    else if tasks[0].id == id then RemoveTask(tasks[1..], id)
    else [tasks[0]] + RemoveTask(tasks[1..], id)
  }

  /** Each survivor is kept exactly as often as it occurred; the tasks with
      the id are all gone. */
  lemma {:induction false} RemoveTaskCounts(tasks: seq<Task>, id: string)
    ensures forall t :: multiset(RemoveTask(tasks, id))[t] == if t.id == id then 0 else multiset(tasks)[t]
  {
    if tasks != [] {
      RemoveTaskCounts(tasks[1..], id);
      assert tasks == [tasks[0]] + tasks[1..];
    }
  }

  /** The survivors are headed by the first task with another id; none
      survive exactly when every task has the id. */
  lemma {:induction false} RemoveTaskHead(tasks: seq<Task>, id: string)
    ensures RemoveTask(tasks, id) != [] ==>
              exists k :: 0 <= k < |tasks| && RemoveTask(tasks, id)[0] == tasks[k] && tasks[k].id != id &&
                          forall j :: 0 <= j < k ==> tasks[j].id == id
    ensures RemoveTask(tasks, id) == [] <==> forall j :: 0 <= j < |tasks| ==> tasks[j].id == id
  {
    if tasks != [] {
      var rest := RemoveTask(tasks[1..], id);
      RemoveTaskHead(tasks[1..], id);
      if tasks[0].id == id {
        if rest != [] {
          var k :| 0 <= k < |tasks[1..]| && rest[0] == tasks[1..][k] && tasks[1..][k].id != id &&
                   forall j :: 0 <= j < k ==> tasks[1..][j].id == id;
          assert tasks[k + 1] == rest[0];
          forall j | 0 <= j < k + 1 ensures tasks[j].id == id {
            if j > 0 { assert tasks[j] == tasks[1..][j - 1]; }
          }
        } else {
          forall j | 0 <= j < |tasks| ensures tasks[j].id == id {
            if j > 0 { assert tasks[j] == tasks[1..][j - 1]; }
          }
        }
      } else {
        assert RemoveTask(tasks, id)[0] == tasks[0];
      }
    }
  }

  /** Deleting distributes over concatenation: the survivors of each part
      keep their relative order. */
  lemma {:induction false} RemoveTaskAppend(a: seq<Task>, b: seq<Task>, id: string)
    ensures RemoveTask(a + b, id) == RemoveTask(a, id) + RemoveTask(b, id)
  {
    if a == [] {
      assert a + b == b;
    } else {
      var ab := a + b;
      assert ab[1..] == a[1..] + b;
      assert ab[0] == a[0];
      RemoveTaskAppend(a[1..], b, id);
      var rest, tail := RemoveTask(a[1..], id), RemoveTask(b, id);
      assert RemoveTask(ab[1..], id) == rest + tail;
      if a[0].id == id {
        assert RemoveTask(ab, id) == rest + tail;
      } else {
        assert RemoveTask(ab, id) == [a[0]] + (rest + tail);
        assert RemoveTask(a, id) == [a[0]] + rest;
      }
    }
  }

  /** Deleting an id that no task has changes nothing. */
  lemma {:induction false} RemoveAbsentIsIdentity(tasks: seq<Task>, id: string)
    requires forall i :: 0 <= i < |tasks| ==> tasks[i].id != id
    ensures RemoveTask(tasks, id) == tasks
  {
    if tasks != [] {
      RemoveAbsentIsIdentity(tasks[1..], id);
    }
  }

  /** `tasks.map(t => t.id === updated.id ? updated : t)`. */
  function ReplaceTask(tasks: seq<Task>, updated: Task): (r: seq<Task>)
    ensures |r| == |tasks|
    ensures forall i :: 0 <= i < |r| ==> r[i].id == tasks[i].id
    ensures forall i :: 0 <= i < |r| && tasks[i].id != updated.id ==> r[i] == tasks[i]
    ensures forall i :: 0 <= i < |r| && tasks[i].id == updated.id ==> r[i] == updated
  {
    seq(|tasks|, i requires 0 <= i < |tasks| => if tasks[i].id == updated.id then updated else tasks[i])
  }

  /** After an edit of a task that is in the list, looking its id up finds
      the edited version; an edit of an id no task has changes nothing. */
  lemma ReplaceThenFind(tasks: seq<Task>, updated: Task)
    ensures (exists i :: 0 <= i < |tasks| && tasks[i].id == updated.id) ==>
              FindById(ReplaceTask(tasks, updated), updated.id) == Some(updated)
    ensures (forall i :: 0 <= i < |tasks| ==> tasks[i].id != updated.id) ==>
              ReplaceTask(tasks, updated) == tasks
  {
  }

  /** The `tasks.map` of `handleUpdateLog`: every task whose id is `sel`
      gets its log updated by the delta, all others are returned as they are. */
  function UpdateSelectedLogs(tasks: seq<Task>, sel: string, date: Date, delta: int): (r: seq<Task>)
    ensures |r| == |tasks|
    ensures forall i :: 0 <= i < |r| && tasks[i].id != sel ==> r[i] == tasks[i]
    ensures forall i :: 0 <= i < |r| && tasks[i].id == sel ==>
              r[i].logs == ApplyDelta(tasks[i].logs, date, delta)
              && r[i] == tasks[i].(logs := r[i].logs)
  {
    seq(|tasks|, i requires 0 <= i < |tasks| =>
      if tasks[i].id != sel then tasks[i]
      else tasks[i].(logs := ApplyDelta(tasks[i].logs, date, delta)))
  }

  /** Logging against the selected task keeps every task's log valid. */
  lemma UpdateSelectedPreservesValid(tasks: seq<Task>, sel: string, date: Date, delta: int)
    requires AllLogsValid(tasks)
    ensures AllLogsValid(UpdateSelectedLogs(tasks, sel, date, delta))
  {
    var r := UpdateSelectedLogs(tasks, sel, date, delta);
    forall i | 0 <= i < |r| ensures ValidLogs(r[i].logs) {
      if tasks[i].id == sel {
        ApplyDeltaPreservesValid(tasks[i].logs, date, delta);
      }
    }
  }

  /** The first task's id, or null: the selection rule of `loadTasks` and of
      deleting the selected task. */
  function FirstId(tasks: seq<Task>): (r: Option<string>)
    ensures r.None? <==> tasks == []
    ensures r.Some? ==> r.value == tasks[0].id
  {
    if |tasks| > 0 then Some(tasks[0].id) else None
  }

  /** The state `App` keeps for the signed-in user. Persistence (`saveTasks`,
      fire-and-forget after each change) is not part of the state. */
  class TaskBoard {
    var tasks: seq<Task>
    var selectedTaskId: Option<string>

    /** Every task's log is a valid collection. */
    predicate Valid()
      reads this
    {
      AllLogsValid(tasks)
    }

    constructor ()
      ensures tasks == [] && selectedTaskId == None && Valid()
    {
      tasks := [];
      selectedTaskId := None;
    }

    /** `tasks.find(t => t.id === selectedTaskId)`. */
    function SelectedTask(): (r: Option<Task>)
      reads this
      ensures r.Some? ==> r.value in tasks && selectedTaskId == Some(r.value.id)
      ensures r.Some? ==> exists k :: 0 <= k < |tasks| && tasks[k] == r.value &&
                                     forall j :: 0 <= j < k ==> tasks[j].id != r.value.id
      ensures r.None? ==> selectedTaskId.None? || forall t :: t in tasks ==> t.id != selectedTaskId.value
    {
      if selectedTaskId.None? then None else FindById(tasks, selectedTaskId.value)
    }

    /** `loadTasks`: the loaded list replaces the tasks and its first task
        becomes selected (null when empty); a failed load (`None`) empties
        the list and leaves the selection as it was. */
    method LoadTasks(loaded: Option<seq<Task>>)
      modifies this
      ensures loaded.Some? ==> tasks == loaded.value && selectedTaskId == FirstId(loaded.value)
      ensures loaded.None? ==> tasks == [] && selectedTaskId == old(selectedTaskId)
    {
      if loaded.Some? {
        tasks := loaded.value;
        selectedTaskId := FirstId(loaded.value);
      } else {
        tasks := [];
      }
    }

    /** `handleAddTask`: the task is appended, and selected only when nothing
        was selected. */
    method AddTask(task: Task)
      modifies this
      ensures tasks == old(tasks) + [task]
      ensures selectedTaskId == if HasSelection(old(selectedTaskId)) then old(selectedTaskId) else Some(task.id)
      ensures old(Valid()) && ValidLogs(task.logs) ==> Valid()
    {
      tasks := tasks + [task];
      if !HasSelection(selectedTaskId) {
        selectedTaskId := Some(task.id);
      }
    }

    /** `handleDeleteTask`: every task with the id is removed; when it was
        the selected one, the selection moves to the first remaining task. */
    method DeleteTask(id: string)
      modifies this
      ensures tasks == RemoveTask(old(tasks), id)
      ensures forall t :: t in tasks ==> t.id != id
      ensures selectedTaskId == if old(selectedTaskId) == Some(id) then FirstId(tasks) else old(selectedTaskId)
      ensures old(selectedTaskId) == Some(id) && tasks != [] ==>
                exists k :: 0 <= k < |old(tasks)| && selectedTaskId == Some(old(tasks)[k].id) &&
                            old(tasks)[k].id != id && forall j :: 0 <= j < k ==> old(tasks)[j].id == id
      ensures old(Valid()) ==> Valid()
    {
      ghost var before := tasks;
      RemoveTaskHead(tasks, id);
      tasks := RemoveTask(tasks, id);
      if selectedTaskId == Some(id) {
        selectedTaskId := FirstId(tasks);
      }
      assert forall i :: 0 <= i < |tasks| ==> tasks[i] in before;
    }

    /** `handleSaveEditedTask`: the tasks whose id matches are replaced; the
        selection is unchanged. */
    method SaveEditedTask(updated: Task)
      modifies this
      ensures tasks == ReplaceTask(old(tasks), updated)
      ensures selectedTaskId == old(selectedTaskId)
      ensures old(Valid()) && ValidLogs(updated.logs) ==> Valid()
    {
      tasks := ReplaceTask(tasks, updated);
    }

    /** `handleUpdateLog`: without a selection nothing happens; otherwise the
        selected task's log takes the delta and nothing else changes. */
    method UpdateLog(date: Date, delta: int)
      modifies this
      ensures !HasSelection(old(selectedTaskId)) ==> tasks == old(tasks)
      ensures HasSelection(old(selectedTaskId)) ==>
                tasks == UpdateSelectedLogs(old(tasks), old(selectedTaskId).value, date, delta)
      ensures selectedTaskId == old(selectedTaskId)
      ensures old(Valid()) ==> Valid()
    {
      if !HasSelection(selectedTaskId) {
        return;
      }
      if Valid() {
        UpdateSelectedPreservesValid(tasks, selectedTaskId.value, date, delta);
      }
      tasks := UpdateSelectedLogs(tasks, selectedTaskId.value, date, delta);
    }

    /** `handleLogout`: the task list is emptied; the selection is left as
        it was. */
    method Logout()
      modifies this
      ensures tasks == [] && selectedTaskId == old(selectedTaskId) && Valid()
    {
      tasks := [];
    }
  }

  /** `tasks.find(t => t.id === id)`: the first task with the id. */
  function FindById(tasks: seq<Task>, id: string): (r: Option<Task>)
    ensures r.Some? ==> r.value in tasks && r.value.id == id
    ensures r.Some? ==> exists k :: 0 <= k < |tasks| && tasks[k] == r.value &&
                                   forall j :: 0 <= j < k ==> tasks[j].id != id
    ensures r.None? ==> forall t :: t in tasks ==> t.id != id
  {
    if tasks == [] then None
    else if tasks[0].id == id then Some(tasks[0])
    else
      var r := FindById(tasks[1..], id);
      if r.Some? then
        var k :| 0 <= k < |tasks[1..]| && tasks[1..][k] == r.value &&
                 forall j :: 0 <= j < k ==> tasks[1..][j].id != id;
        assert tasks[k + 1] == r.value;
        assert forall j :: 0 <= j < k + 1 ==> tasks[j].id != id by {
          forall j | 0 <= j < k + 1 ensures tasks[j].id != id {
            if j > 0 { assert tasks[j] == tasks[1..][j - 1]; }
          }
        }
        r
      else r
  }

  /** The three figures of the task header: daily goal, weekly goal and the
      four-week monthly goal. */
  function GoalHeader(task: Task): (r: (int, int, int))
    ensures r.0 == task.dailyGoal
    ensures r.2 == 4 * r.1 && r.1 == task.dailyGoal * task.weeklyDays
  {
    (task.dailyGoal, WeeklyTarget(task.dailyGoal, task.weeklyDays), MonthlyGoal(task.dailyGoal, task.weeklyDays))
  }
}
