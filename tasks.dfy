/** The tasks page (`client/src/pages/tasks.tsx`): the status toggle, the two filters, the
    pending/completed split and the create form. */
module Tasks {
  import opened Strings
  import opened Lists
  import Storage

  datatype Task = Task(
    id: int, title: string, description: Option<string>, priority: string, status: string,
    dueDate: Option<string>, subject: Option<string>)

  /** The status update the toggle requests. */
  datatype StatusUpdate = StatusUpdate(id: int, status: string)

  /** `toggleTaskStatus`: completed goes back to pending, anything else becomes completed. */
  function ToggleTaskStatus(task: Task): (r: StatusUpdate)
    ensures r.id == task.id
    ensures r.status == "pending" <==> task.status == "completed"
    ensures r.status == "completed" <==> task.status != "completed"
  {
    StatusUpdate(task.id, if task.status == "completed" then "pending" else "completed")
  }

  /** Toggling twice does not restore an in-progress task: it ends up pending. */
  lemma ToggleNotInvolution(task: Task)
    requires task.status == "in_progress"
    ensures var once := ToggleTaskStatus(task);
      ToggleTaskStatus(task.(status := once.status)).status == "pending" != task.status
  {
  }

  /** A filter value of `"all"` or `""` lets everything through. */
  predicate Passes(filter: string, value: string)
  {
    filter == "all" || filter == "" || value == filter
  }

  predicate Shown(filterStatus: string, filterPriority: string, task: Task)
  {
    Passes(filterStatus, task.status) && Passes(filterPriority, task.priority)
  }

  /** `filteredTasks`: the tasks passing both filters, in their original order. */
  function FilteredTasks(tasks: seq<Task>, filterStatus: string, filterPriority: string): (r: seq<Task>)
    ensures forall k | 0 <= k < |r| :: r[k] in tasks && Shown(filterStatus, filterPriority, r[k])
    ensures forall k | 0 <= k < |tasks| && Shown(filterStatus, filterPriority, tasks[k]) :: tasks[k] in r
    ensures IsSubsequence(r, tasks)
  {
    var p := (t: Task) => Shown(filterStatus, filterPriority, t);
    FilterMembershipAll(tasks, p);
    FilterIsSubsequence(tasks, p);
    Filter(tasks, p)
  }

  /** With both filters unset every task is shown. */
  lemma NoFiltersShowAll(tasks: seq<Task>, filterStatus: string, filterPriority: string)
    requires filterStatus in {"", "all"} && filterPriority in {"", "all"}
    ensures FilteredTasks(tasks, filterStatus, filterPriority) == tasks
  {
    FilterKeepsAll(tasks, (t: Task) => Shown(filterStatus, filterPriority, t));
  }

  /** The tasks not yet completed, in their shown order. */
  function PendingTasks(shown: seq<Task>): (r: seq<Task>)
    ensures forall k | 0 <= k < |r| :: r[k] in shown && r[k].status != "completed"
    ensures forall k | 0 <= k < |shown| && shown[k].status != "completed" :: shown[k] in r
  {
    var p := (t: Task) => t.status != "completed";
    FilterMembershipAll(shown, p);
    Filter(shown, p)
  }

  /** The completed tasks, in their shown order. */
  function CompletedTasks(shown: seq<Task>): (r: seq<Task>)
    ensures forall k | 0 <= k < |r| :: r[k] in shown && r[k].status == "completed"
    ensures forall k | 0 <= k < |shown| && shown[k].status == "completed" :: shown[k] in r
  {
    var p := (t: Task) => t.status == "completed";
    FilterMembershipAll(shown, p);
    Filter(shown, p)
  }

  /** Pending and completed split the shown tasks: no task is in both, together they are all of
      them, and each keeps the original order. */
  lemma PendingCompletedPartition(shown: seq<Task>)
    ensures multiset(PendingTasks(shown)) + multiset(CompletedTasks(shown)) == multiset(shown)
    ensures |PendingTasks(shown)| + |CompletedTasks(shown)| == |shown|
    ensures forall t | t in PendingTasks(shown) :: t !in CompletedTasks(shown)
    ensures IsSubsequence(PendingTasks(shown), shown) && IsSubsequence(CompletedTasks(shown), shown)
  {
    var pending := (t: Task) => t.status != "completed";
    var completed := (t: Task) => t.status == "completed";
    FilterPartition(shown, pending, completed);
    FilterIsSubsequence(shown, pending);
    FilterIsSubsequence(shown, completed);
    forall t | t in PendingTasks(shown)
      ensures t !in CompletedTasks(shown)
    {
      FilterMembership(shown, pending, t);
      FilterMembership(shown, completed, t);
    }
  }

  // ---------------------------------------------------------------- the create form

  datatype TaskForm = TaskForm(title: string, description: string, priority: string, dueDate: string, subject: string)

  /** The form on opening and after every successful create. */
  const EmptyForm := TaskForm("", "", "medium", "", "")

  /** The body posted for a form: the text fields as typed, no status, and an empty due date
      sent as `null`. A non-empty due date is passed on unconverted; the client's
      `toISOString()` conversion is not part of this model. */
  function TaskRequest(form: TaskForm): (r: Storage.InsertTask)
    ensures r.title == form.title && r.status.None?
    ensures form.dueDate == "" <==> r.dueDate.None?
  {
    Storage.InsertTask(form.title, Some(form.description), None, Some(form.priority), Some(form.subject),
                       if form.dueDate == "" then None else Some(form.dueDate))
  }

  /** What the store keeps for a submitted form: a pending task with the chosen priority, and
      `null` for every field left empty. The reset form yields a medium-priority task. */
  lemma SubmittedTaskStored(form: TaskForm)
    ensures var f := Storage.NewTask(TaskRequest(form));
      f.status == "pending" &&
      (form.priority != "" ==> f.priority == form.priority) &&
      (form.description == "" <==> f.description.None?) &&
      (form.subject == "" <==> f.subject.None?) &&
      (form.dueDate == "" <==> f.dueDate.None?)
    ensures Storage.NewTask(TaskRequest(EmptyForm)).priority == "medium"
  {
  }
}
