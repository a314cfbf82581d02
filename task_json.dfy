/** A task as the browser holds it: the JSON object of the REST API, whose
    enumerations arrive as strings. `daysUntilDeadline` and `statusLabel` are
    optional because the server's serializer never sends them; the client
    code still reads them. */
module TaskJson {
  import opened Wrappers

  const Pending: string := "pending"
  const Completed: string := "completed"

  datatype Task = Task(
    id: int,
    user: int,
    title: string,
    description: string,
    status: string,
    priority: string,
    deadline: Option<int>,
    category: string,
    recurrence: string,
    createdAt: int,
    updatedAt: Option<int>,
    daysUntilDeadline: Option<int>,
    statusLabel: Option<string>)

  predicate IsPending(t: Task)
  {
    t.status == Pending
  }

  predicate IsCompleted(t: Task)
  {
    t.status == Completed
  }

  /** The ids of a task list, in order. */
  function Ids(s: seq<Task>): (r: seq<int>)
    ensures |r| == |s|
    ensures forall i :: 0 <= i < |s| ==> r[i] == s[i].id
  {
    if s == [] then [] else [s[0].id] + Ids(s[1..])
  }

  function IsPendingFn(): Task -> bool { (t: Task) => IsPending(t) }
  function IsCompletedFn(): Task -> bool { (t: Task) => IsCompleted(t) }

  function HasPriority(p: string): Task -> bool
  {
    (t: Task) => t.priority == p
  }

  /** No two entries share an id. */
  predicate UniqueIds(s: seq<Task>)
  {
    forall i, j :: 0 <= i < j < |s| ==> s[i].id != s[j].id
  }
}
