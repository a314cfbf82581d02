/** The live task page, web/src/pages/Dashboard.jsx: the pending and
    completed lists, the three counters, what the list area shows, and the
    new-task form. */
module Dashboard {
  import Seqs
  import Wrappers
  import TaskJson
  import Api
  import TaskStore

  type Task = TaskJson.Task

  /** `tasks.filter(t => t.status === status)`: the tasks with that status,
      all of them, in their order. */
  function WithStatus(tasks: seq<Task>, status: string): (r: seq<Task>)
    ensures Seqs.IsSubsequence(r, tasks)
    ensures forall i :: 0 <= i < |r| ==> r[i].status == status
    ensures forall i :: 0 <= i < |tasks| && tasks[i].status == status ==> tasks[i] in r
  {
    Seqs.FilterIsSubsequence(tasks, HasStatus(status));
    Seqs.Filter(tasks, HasStatus(status))
  }

  function HasStatus(status: string): Task -> bool
  {
    (t: Task) => t.status == status
  }

  /** The three counters: all tasks, pending, completed. */
  datatype Counters = Counters(total: nat, pending: nat, completed: nat)

  function CountersOf(tasks: seq<Task>): (c: Counters)
    ensures c.total == |tasks|
    ensures c.pending == |WithStatus(tasks, TaskJson.Pending)|
    ensures c.completed == |WithStatus(tasks, TaskJson.Completed)|
    ensures c.pending + c.completed <= c.total
  {
    Seqs.CountDisjoint(tasks, HasStatus(TaskJson.Pending), HasStatus(TaskJson.Completed));
    Counters(|tasks|, |WithStatus(tasks, TaskJson.Pending)|, |WithStatus(tasks, TaskJson.Completed)|)
  }

  /** When every task is pending or completed the two lists show every task
      exactly once. */
  lemma ListsCoverAll(tasks: seq<Task>)
    requires forall i :: 0 <= i < |tasks| ==> TaskJson.IsPending(tasks[i]) || TaskJson.IsCompleted(tasks[i])
    ensures multiset(WithStatus(tasks, TaskJson.Pending)) + multiset(WithStatus(tasks, TaskJson.Completed)) == multiset(tasks)
    ensures CountersOf(tasks).pending + CountersOf(tasks).completed == CountersOf(tasks).total
  {
    TaskStore.StatusPartition(tasks);
    Seqs.FilterSame(tasks, HasStatus(TaskJson.Pending), TaskJson.IsPendingFn());
    Seqs.FilterSame(tasks, HasStatus(TaskJson.Completed), TaskJson.IsCompletedFn());
    assert |multiset(WithStatus(tasks, TaskJson.Pending))| + |multiset(WithStatus(tasks, TaskJson.Completed))| == |multiset(tasks)|;
  }

  /** What the list area shows. */
  datatype ListArea = LoadingMessage | EmptyMessage | TaskLists

  function ListAreaOf(loading: bool, tasks: seq<Task>): (a: ListArea)
    ensures a == LoadingMessage <==> loading
    ensures a == EmptyMessage <==> !loading && |tasks| == 0
    ensures a == TaskLists <==> !loading && |tasks| > 0
  {
    if loading then LoadingMessage else if |tasks| == 0 then EmptyMessage else TaskLists
  }

  /** The form's fields, all strings as the inputs hold them. */
  datatype TaskForm = TaskForm(title: string, description: string, priority: string, status: string, deadline: string)

  const BlankForm: TaskForm := TaskForm("", "", "medium", "pending", "")

  class Page {
    var showForm: bool
    var form: TaskForm

    constructor ()
      ensures !showForm && form == BlankForm
    {
      showForm := false;
      form := BlankForm;
    }

    /** The "Add Task" button. */
    method ToggleForm()
      modifies this
      ensures showForm == !old(showForm) && form == old(form)
    {
      showForm := !showForm;
    }

    /** `handleSubmit`: the form goes to the store's `createTask`; on
        success the form is blanked and hidden, on failure (logged to the
        console) both stay as they were. */
    method HandleSubmit(store: TaskStore.Store, reply: Api.Reply<Task>) returns (sent: TaskForm)
      modifies this, store
      ensures sent == old(form)
      ensures reply.Success? ==> form == BlankForm && !showForm
      ensures reply.Failure? ==> form == old(form) && showForm == old(showForm)
      ensures reply.Success? ==> store.tasks == [reply.value] + old(store.tasks)
      ensures reply.Failure? ==> store.tasks == old(store.tasks)
      ensures store.loading == old(store.loading)
      ensures reply.Success? ==> store.error == old(store.error)
      ensures reply.Failure? ==> store.error == Wrappers.Some(Api.ErrorText(reply.error, TaskStore.CreateFallback))
    {
      sent := form;
      var r := store.CreateTask(reply);
      if r.Success? {
        form := BlankForm;
        showForm := false;
      }
    }
  }
}
