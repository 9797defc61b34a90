/**
 * The create, rename and delete handlers of the board. The user's answer to the dialog is a
 * parameter (None for a cancelled prompt) and so is the clock reading; each handler decides
 * whether a write is sent and which.
 */
module TaskActions {
  import opened Wrappers
  import opened Tasks
  import opened Projection

  /** The field set sent to the store for a new task; the store mints its id. */
  datatype NewTask = NewTask(title: string, column: string, position: int)

  /** The create handler: a cancelled or empty name sends nothing. */
  function CreateTask(name: Option<string>, now: int): (r: Option<NewTask>)
    ensures r.None? <==> name.None? || name.value == ""
    ensures r.Some? ==> r.value.title == name.value && r.value.column == "todo" && r.value.position == now
  {
    match name
    case None => None
    case Some(n) => if n == "" then None else Some(NewTask(n, "todo", now))
  }

  /** The task a snapshot reports for a created record stored under `id`. */
  function Stored(n: NewTask, id: string): Task
  {
    Task(id, n.title, n.column, n.position)
  }

  /** The rename handler: only a non-empty title that differs from the current one is written. */
  function RenameTask(task: Task, input: Option<string>): (r: Option<Update>)
    ensures r.Some? <==> input.Some? && input.value != "" && input.value != task.title
    ensures r.Some? ==> && r.value.id == task.id
                        && r.value.title == Some(input.value)
                        && r.value.column.None? && r.value.position.None?
  {
    match input
    case None => None
    case Some(title) =>
      if title != "" && title != task.title then Some(Update(task.id, Some(title), None, None))
      else None
  }

  /** The delete handler: only a confirmed delete is sent. */
  function RemoveTask(id: string, confirmed: bool): (r: Option<Delete>)
    ensures r.Some? <==> confirmed
    ensures r.Some? ==> r.value.id == id
  {
    if confirmed then Some(Delete(id)) else None
  }

  // ------------------------------------------------------------------- create

  /**
   * A created task is shown in the todo column and in no other, wherever the snapshot lists
   * its document.
   */
  lemma {:induction false} CreatedTaskShownInTodo(a: seq<Task>, b: seq<Task>, name: Option<string>, now: int, id: string)
    requires CreateTask(name, now).Some?
    ensures var t := Stored(CreateTask(name, now).value, id);
            && t in Project(a + [t] + b, "todo")
            && forall key :: key != "todo" ==> t !in Project(a + [t] + b, key)
  {
    var n := CreateTask(name, now).value;
    var t := Stored(n, id);
    assert t.column == "todo";
    assert t in a + [t] + b;
  }

  /**
   * When the clock reading is above every todo position, the created task is last in todo,
   * wherever the snapshot lists its document, and the rest of todo is unchanged.
   */
  lemma {:induction false} CreatedTaskLandsLast(a: seq<Task>, b: seq<Task>, name: Option<string>, now: int, id: string)
    requires CreateTask(name, now).Some?
    requires forall e :: e in a + b && e.column == "todo" ==> e.position < now
    ensures var t := Stored(CreateTask(name, now).value, id);
            Project(a + [t] + b, "todo") == Project(a + b, "todo") + [t]
  {
    var t := Stored(CreateTask(name, now).value, id);
    assert t.column == "todo" && t.position == now;
    InColumnAroundIn(a, t, b, "todo");
    InColumnAppend(a, b, "todo");
    ColumnsBelow(a, b, "todo", now);
    SortMaxLast(InColumn(a, "todo"), t, InColumn(b, "todo"));
  }

  /** The example of a first task: on an empty board, todo shows it and done shows nothing. */
  lemma {:induction false} CreateExample(now: int, id: string)
    ensures var n := CreateTask(Some("Write spec"), now).value;
            var t := Stored(n, id);
            && t.title == "Write spec"
            && Project([t], "todo") == [t]
            && Project([t], "done") == []
  {
    var t := Stored(CreateTask(Some("Write spec"), now).value, id);
    CreatedTaskLandsLast([], [], Some("Write spec"), now, id);
    assert [] + [t] + [] == [t];
    var empty: seq<Task> := [];
    assert empty + empty == empty;
    InColumnSingle(t, "done");
  }

  // ------------------------------------------------------------------- rename

  /** Written over the task, a rename changes its title and nothing else. */
  lemma {:induction false} RenameChangesTitleOnly(task: Task, input: Option<string>)
    requires RenameTask(task, input).Some?
    ensures Merge(task, RenameTask(task, input).value) == task.(title := input.value)
  {
  }

  /** A rename reorders nothing: every column shows the same records in the same places. */
  lemma {:induction false} RenameKeepsOrder(ts: seq<Task>, task: Task, input: Option<string>, key: string)
    requires RenameTask(task, input).Some?
    ensures var u := RenameTask(task, input).value;
            Project(ApplyUpdate(ts, u), key) == ApplyUpdate(Project(ts, key), u)
  {
    ProjectKeepsOrder(ts, RenameTask(task, input).value, key);
  }

  // ------------------------------------------------------------------- delete

  /** A confirmed delete removes the task from every column. */
  lemma {:induction false} DeletedTaskShownNowhere(ts: seq<Task>, id: string, t: Task, i: int)
    requires 0 <= i < |BoardColumns|
    requires t.id == id
    ensures t !in BoardView(ApplyDelete(ts, RemoveTask(id, true).value))[i]
  {
    var rest := ApplyDelete(ts, Delete(id));
    assert multiset(rest)[t] == 0;
  }

  /**
   * A delete of an id that another client has already removed changes nothing on the board;
   * the next snapshot shows the same columns.
   */
  lemma {:induction false} DeleteOfAbsentTaskChangesNothing(ts: seq<Task>, id: string)
    requires forall t :: t in ts ==> t.id != id
    ensures BoardView(ApplyDelete(ts, RemoveTask(id, true).value)) == BoardView(ts)
  {
    ApplyDeleteAbsent(ts, Delete(id));
  }

  /** A delete reorders nothing: every column shows the tasks it showed, in the same order, less the deleted id. */
  lemma {:induction false} DeleteKeepsOrder(ts: seq<Task>, id: string, key: string)
    ensures var d := RemoveTask(id, true).value;
            Project(ApplyDelete(ts, d), key) == ApplyDelete(Project(ts, key), d)
  {
    ProjectDeleteKeepsOrder(ts, Delete(id), key);
  }
}
