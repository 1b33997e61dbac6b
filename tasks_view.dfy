/**
 * The task list page: the status filter, the two counters, and the create/edit
 * dialog. Submitting the dialog issues one store call, returned here as a value
 * (`TaskCall`) instead of being made.
 */
module TasksView {
  import opened Wrappers
  import opened Strings
  import opened Records
  import opened Collection
  import Dashboard

  /** `filter === "pending"` keeps open tasks, `"completed"` done ones, anything else all. */
  predicate PassesFilter(filter: string, t: Task) {
    if filter == "pending" then !t.completed
    else if filter == "completed" then t.completed
    else true
  }

  /** `filteredTasks` */
  function FilteredTasks(tasks: seq<Task>, filter: string): (r: seq<Task>)
    ensures IsSubsequence(r, tasks)
    ensures filter == "pending" ==> forall t :: t in r <==> t in tasks && !t.completed
    ensures filter == "completed" ==> forall t :: t in r <==> t in tasks && t.completed
    ensures filter != "pending" && filter != "completed" ==> r == tasks
  {
    var r := Filter(tasks, (t: Task) => PassesFilter(filter, t));
    if filter != "pending" && filter != "completed" then
      FilterAll(tasks, (t: Task) => PassesFilter(filter, t));
      r
    else r
  }

  /** The list's "pending" and "completed" filters are the dashboard's two lists. */
  lemma FilteredTasksAgreeWithDashboard(tasks: seq<Task>)
    ensures FilteredTasks(tasks, "pending") == Dashboard.PendingTasks(tasks)
    ensures FilteredTasks(tasks, "completed") == Dashboard.CompletedTasks(tasks)
  {
    FilterExtensional(tasks, (t: Task) => PassesFilter("pending", t), IsPending);
    FilterExtensional(tasks, (t: Task) => PassesFilter("completed", t), IsCompleted);
  }

  /** `pendingCount` */
  function PendingCount(tasks: seq<Task>): (r: nat)
    ensures r <= |tasks|
  {
    |Dashboard.PendingTasks(tasks)|
  }

  /** `completedCount` */
  function CompletedCount(tasks: seq<Task>): (r: nat)
    ensures r <= |tasks|
  {
    |Dashboard.CompletedTasks(tasks)|
  }

  /** The header's two numbers add up to the number of tasks. */
  lemma CountsAddUp(tasks: seq<Task>)
    ensures PendingCount(tasks) + CompletedCount(tasks) == |tasks|
  {
    Dashboard.PendingCompletedPartition(tasks);
  }

  /** The store call a submit issues. */
  datatype TaskCall =
    | AddTaskCall(fields: TaskFields)
    | UpdateTaskCall(id: string, patch: TaskPatch)

  /** `newDueDate || null`: the empty string is falsy and becomes `null`. */
  function DueDateOrNull(s: string): (r: Option<string>)
    ensures r == None <==> s == ""
    ensures r.Some? ==> r.value == s
  {
    if s == "" then None else Some(s)
  }

  /** `task.dueDate ?? ""`: the text the date input shows for a stored due date. */
  function DueDateText(d: Option<string>): (r: string)
    ensures d.Some? ==> r == d.value
    ensures d.None? ==> r == ""
  {
    d.GetOr("")
  }

  /** Loading a due date into the input and reading it back gives it again, unless it is `""`. */
  lemma DueDateRoundTrip(d: Option<string>)
    requires d != Some("")
    ensures DueDateOrNull(DueDateText(d)) == d
  {
  }

  /**
   * What `handleAddTask` sends: nothing for a blank title; otherwise the
   * trimmed title, the priority and the normalised due date, as an update of
   * the task being edited or as a new task.
   */
  function SubmitCall(editing: Option<Task>, title: string, priority: Priority, dueDate: string): (r: Option<TaskCall>)
    ensures r.None? <==> IsBlank(title)
    ensures r.Some? && editing.Some? ==> r.value.UpdateTaskCall? && r.value.id == editing.value.id
    ensures r.Some? && editing.None? ==> r.value.AddTaskCall?
    ensures r.Some? && r.value.AddTaskCall? ==>
              r.value.fields == TaskFields(Trim(title), priority, DueDateOrNull(dueDate))
    ensures r.Some? && r.value.UpdateTaskCall? ==>
              r.value.patch == TaskPatch(None, Some(Trim(title)), Some(priority), Some(DueDateOrNull(dueDate)), None)
    ensures r.Some? ==> !IsBlank(Trim(title))
  {
    TrimIdempotent(title);
    if IsBlank(title) then None
    else if editing.Some? then
      Some(UpdateTaskCall(editing.value.id,
        TaskPatch(None, Some(Trim(title)), Some(priority), Some(DueDateOrNull(dueDate)), None)))
    else Some(AddTaskCall(TaskFields(Trim(title), priority, DueDateOrNull(dueDate))))
  }

  /**
   * Opening a task for editing and saving it untouched is a no-op on that task,
   * when its title is already trimmed and not blank and its due date is not `""`.
   */
  lemma EditUnchangedIsNoOp(t: Task)
    requires Trim(t.title) == t.title && !IsBlank(t.title) && t.dueDate != Some("")
    ensures var c := SubmitCall(Some(t), t.title, t.priority, DueDateText(t.dueDate));
      c.Some? && c.value.UpdateTaskCall? && MergeTask(t, c.value.patch) == t
  {
    DueDateRoundTrip(t.dueDate);
  }

  /** The page's own state. */
  class TaskForm {
    var filter: string
    var dialogOpen: bool
    var editingTask: Option<Task>
    var newTitle: string
    var newPriority: Priority
    var newDueDate: string

    constructor ()
      ensures filter == "all" && !dialogOpen && editingTask == None
      ensures newTitle == "" && newPriority == Media && newDueDate == ""
    {
      filter := "all";
      dialogOpen := false;
      editingTask := None;
      newTitle := "";
      newPriority := Media;
      newDueDate := "";
    }

    /** The empty form: no task being edited, default fields. */
    ghost predicate IsReset()
      reads this
    {
      editingTask == None && newTitle == "" && newPriority == Media && newDueDate == ""
    }

    method SetFilter(f: string)
      modifies this`filter
      ensures filter == f
    {
      filter := f;
    }

    /** The dialog's `onOpenChange`: opening or closing it keeps the form as it is. */
    method SetDialogOpen(b: bool)
      modifies this`dialogOpen
      ensures dialogOpen == b
    {
      dialogOpen := b;
    }

    /**
     * `handleAddTask`: a blank title changes nothing and calls nothing; otherwise
     * one call is issued, the form is reset and the dialog closes.
     */
    method HandleAddTask() returns (call: Option<TaskCall>)
      modifies this
      ensures call == SubmitCall(old(editingTask), old(newTitle), old(newPriority), old(newDueDate))
      ensures call.None? ==> unchanged(this)
      ensures call.Some? ==> IsReset() && !dialogOpen && filter == old(filter)
    {
      if IsBlank(newTitle) {
        return None;
      }
      var title := Trim(newTitle);
      var due := DueDateOrNull(newDueDate);
      if editingTask.Some? {
        call := Some(UpdateTaskCall(editingTask.value.id, TaskPatch(None, Some(title), Some(newPriority), Some(due), None)));
      } else {
        call := Some(AddTaskCall(TaskFields(title, newPriority, due)));
      }
      newTitle := "";
      newPriority := Media;
      newDueDate := "";
      editingTask := None;
      dialogOpen := false;
    }

    /** `startNewTask`: an empty form in an open dialog. */
    method StartNewTask()
      modifies this
      ensures IsReset() && dialogOpen && filter == old(filter)
    {
      editingTask := None;
      newTitle := "";
      newPriority := Media;
      newDueDate := "";
      dialogOpen := true;
    }

    /** `startEditTask`: the task's fields in an open dialog, a missing due date as `""`. */
    method StartEditTask(t: Task)
      modifies this
      ensures editingTask == Some(t) && newTitle == t.title && newPriority == t.priority
      ensures newDueDate == DueDateText(t.dueDate)
      ensures dialogOpen && filter == old(filter)
    {
      editingTask := Some(t);
      newTitle := t.title;
      newPriority := t.priority;
      newDueDate := DueDateText(t.dueDate);
      dialogOpen := true;
    }
  }
}
