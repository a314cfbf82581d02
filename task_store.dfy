/** The task store of web/src/hooks/useTasks.js: the task list, the loading
    flag and the error text of the hook, and the operations that change
    them. Each server reply is a parameter: the data of a successful
    response or the rejection. */
module TaskStore {
  import opened Wrappers
  import Seqs
  import TaskJson
  import opened Api
  import LocalStorage

  type Task = TaskJson.Task

  // How the list changes

  /** `tasks.map(t => t.id === id ? task : t)` */
  function ReplaceById(s: seq<Task>, id: int, task: Task): (r: seq<Task>)
    ensures |r| == |s|
    ensures forall i :: 0 <= i < |s| ==> r[i] == if s[i].id == id then task else s[i]
  {
    if s == [] then []
    else [if s[0].id == id then task else s[0]] + ReplaceById(s[1..], id, task)
  }

  /** Replacing with the server's copy of the same task keeps the ids, and a
      second replacement changes nothing more. */
  lemma ReplaceByIdProperties(s: seq<Task>, id: int, task: Task)
    requires task.id == id
    ensures TaskJson.Ids(ReplaceById(s, id, task)) == TaskJson.Ids(s)
    ensures ReplaceById(ReplaceById(s, id, task), id, task) == ReplaceById(s, id, task)
  {
  }

  /** An id that is not in the list leaves it as it is. */
  lemma ReplaceByIdAbsent(s: seq<Task>, id: int, task: Task)
    requires forall i :: 0 <= i < |s| ==> s[i].id != id
    ensures ReplaceById(s, id, task) == s
  {
  }

  function HasOtherId(id: int): Task -> bool
  {
    (t: Task) => t.id != id
  }

  /** `tasks.filter(t => t.id !== id)`: every entry with that id goes, every
      other entry stays, as often as it was there and in the same order. */
  function RemoveById(s: seq<Task>, id: int): (r: seq<Task>)
    ensures Seqs.IsSubsequence(r, s)
    ensures forall i :: 0 <= i < |r| ==> r[i].id != id
    ensures forall t :: multiset(r)[t] == if t.id == id then 0 else multiset(s)[t]
  {
    Seqs.FilterIsSubsequence(s, HasOtherId(id));
    forall t ensures multiset(Seqs.Filter(s, HasOtherId(id)))[t] == if t.id == id then 0 else multiset(s)[t] {
      Seqs.FilterMultiset(s, HasOtherId(id), t);
    }
    Seqs.Filter(s, HasOtherId(id))
  }

  /** `pendingTasks.find(t => t.id === id)`: the first task with that id. */
  function FindById(s: seq<Task>, id: int): (r: Option<Task>)
    ensures r.Some? ==> r.value in s && r.value.id == id
    ensures r.None? <==> forall i :: 0 <= i < |s| ==> s[i].id != id
  {
    if s == [] then None
    else if s[0].id == id then Some(s[0])
    else FindById(s[1..], id)
  }

  /** In a list without repeated ids, each task is found by its own id. */
  lemma {:induction false} FindByIdUnique(s: seq<Task>, t: Task)
    requires TaskJson.UniqueIds(s) && t in s
    ensures FindById(s, t.id) == Some(t)
  {
    if s[0] != t {
      assert TaskJson.UniqueIds(s[1..]);
      FindByIdUnique(s[1..], t);
    }
  }

  /** `orderArray.map(id => pending.find(...)).filter(Boolean)`: the task
      found for each id, in the order of the ids, skipping ids not found. */
  function LookUp(pending: seq<Task>, ids: seq<int>): (r: seq<Task>)
    ensures |r| <= |ids|
    ensures forall i :: 0 <= i < |r| ==> r[i] in pending
  {
    if ids == [] then []
    else
      var rest := LookUp(pending, ids[1..]);
      match FindById(pending, ids[0])
      case Some(t) => [t] + rest
      case None => rest
  }


  /** `updateTaskOrder`'s new list: the pending tasks looked up in the order
      of `orderArray`, then the completed tasks as they were. */
  function Reordered(tasks: seq<Task>, orderArray: seq<int>): (r: seq<Task>)
    ensures forall i :: 0 <= i < |r| ==> TaskJson.IsPending(r[i]) || TaskJson.IsCompleted(r[i])
  {
    var pending := Seqs.Filter(tasks, TaskJson.IsPendingFn());
    var completed := Seqs.Filter(tasks, TaskJson.IsCompletedFn());
    var looked := LookUp(pending, orderArray);
    assert forall i :: 0 <= i < |looked| ==> TaskJson.IsPending(looked[i]);
    looked + completed
  }

  function InIds(s: seq<Task>): int -> bool
  {
    (k: int) => k in TaskJson.Ids(s)
  }

  lemma {:induction false} LookUpIds(pending: seq<Task>, ids: seq<int>)
    ensures TaskJson.Ids(LookUp(pending, ids)) == Seqs.Filter(ids, InIds(pending))
  {
    if ids != [] {
      LookUpIds(pending, ids[1..]);
      var rest := LookUp(pending, ids[1..]);
      var f := FindById(pending, ids[0]);
      if f.Some? {
        assert ids[0] in TaskJson.Ids(pending) by {
          var i :| 0 <= i < |pending| && pending[i].id == ids[0];
          assert TaskJson.Ids(pending)[i] == ids[0];
        }
        assert TaskJson.Ids([f.value] + rest) == [f.value.id] + TaskJson.Ids(rest);
      } else {
        assert ids[0] !in TaskJson.Ids(pending);
      }
    }
  }

  lemma LookUpPending(pending: seq<Task>, ids: seq<int>)
    requires forall i :: 0 <= i < |pending| ==> TaskJson.IsPending(pending[i])
    ensures Seqs.Filter(LookUp(pending, ids), TaskJson.IsPendingFn()) == LookUp(pending, ids)
    ensures Seqs.Filter(LookUp(pending, ids), TaskJson.IsCompletedFn()) == []
  {
    var l := LookUp(pending, ids);
    Seqs.FilterAll(l, TaskJson.IsPendingFn());
    Seqs.FilterNone(l, TaskJson.IsCompletedFn());
  }

  lemma PendingOnly(tasks: seq<Task>)
    ensures forall i :: 0 <= i < |Seqs.Filter(tasks, TaskJson.IsPendingFn())| ==>
      TaskJson.IsPending(Seqs.Filter(tasks, TaskJson.IsPendingFn())[i])
  {
  }

  /** The new list shows the pending tasks in the order of `orderArray`
      (each id that names a pending task, as often as it is listed), and
      after them the completed tasks in their previous relative order. */
  lemma ReorderedOrder(tasks: seq<Task>, orderArray: seq<int>)
    ensures var r := Reordered(tasks, orderArray);
      TaskJson.Ids(Seqs.Filter(r, TaskJson.IsPendingFn()))
        == Seqs.Filter(orderArray, InIds(Seqs.Filter(tasks, TaskJson.IsPendingFn())))
      && Seqs.Filter(r, TaskJson.IsCompletedFn()) == Seqs.Filter(tasks, TaskJson.IsCompletedFn())
  {
    var pending := Seqs.Filter(tasks, TaskJson.IsPendingFn());
    var completed := Seqs.Filter(tasks, TaskJson.IsCompletedFn());
    var looked := LookUp(pending, orderArray);
    PendingOnly(tasks);
    LookUpPending(pending, orderArray);
    LookUpIds(pending, orderArray);
    Seqs.FilterConcat(looked, completed, TaskJson.IsPendingFn());
    Seqs.FilterConcat(looked, completed, TaskJson.IsCompletedFn());
    Seqs.FilterNone(completed, TaskJson.IsPendingFn());
    Seqs.FilterIdempotent(tasks, TaskJson.IsCompletedFn());
  }

  /** Filtering never brings in an id the list did not have. */
  lemma {:induction false} FilterIdAbsent(s: seq<Task>, p: Task -> bool, id: int)
    requires forall i :: 0 <= i < |s| ==> s[i].id != id
    ensures forall j :: 0 <= j < |Seqs.Filter(s, p)| ==> Seqs.Filter(s, p)[j].id != id
  {
    if s != [] {
      Seqs.FilterHead(s, p);
      FilterIdAbsent(s[1..], p, id);
    }
  }

  lemma UniqueCons(x: Task, rest: seq<Task>)
    requires TaskJson.UniqueIds(rest)
    requires forall j :: 0 <= j < |rest| ==> rest[j].id != x.id
    ensures TaskJson.UniqueIds([x] + rest)
  {
    var out := [x] + rest;
    forall i, j | 0 <= i < j < |out| ensures out[i].id != out[j].id {
      assert out[j] == rest[j - 1];
      if i > 0 {
        assert out[i] == rest[i - 1];
      }
    }
  }

  lemma {:induction false} FilterUnique(s: seq<Task>, p: Task -> bool)
    requires TaskJson.UniqueIds(s)
    ensures TaskJson.UniqueIds(Seqs.Filter(s, p))
  {
    if s != [] {
      assert TaskJson.UniqueIds(s[1..]);
      FilterUnique(s[1..], p);
      Seqs.FilterHead(s, p);
      assert forall i :: 0 <= i < |s[1..]| ==> s[1..][i].id != s[0].id by {
        forall i | 0 <= i < |s[1..]| ensures s[1..][i].id != s[0].id {
          assert s[1..][i] == s[i + 1];
        }
      }
      FilterIdAbsent(s[1..], p, s[0].id);
      if p(s[0]) {
        UniqueCons(s[0], Seqs.Filter(s[1..], p));
      }
    }
  }

  /** Looking up ids in a list without repeated ids yields each task as often
      as its id is listed. */
  lemma {:induction false} LookUpCount(pending: seq<Task>, ids: seq<int>, t: Task)
    requires TaskJson.UniqueIds(pending)
    ensures multiset(LookUp(pending, ids))[t] == if t in pending then multiset(ids)[t.id] else 0
  {
    if ids != [] {
      LookUpCount(pending, ids[1..], t);
      LookUpCountStep(pending, ids, t);
    }
  }

  lemma LookUpCountStep(pending: seq<Task>, ids: seq<int>, t: Task)
    requires TaskJson.UniqueIds(pending) && ids != []
    requires multiset(LookUp(pending, ids[1..]))[t] == if t in pending then multiset(ids[1..])[t.id] else 0
    ensures multiset(LookUp(pending, ids))[t] == if t in pending then multiset(ids)[t.id] else 0
  {
    LookUpHead(pending, ids, t);
    Seqs.MultisetHead(ids, t.id);
    FoundIsTask(pending, ids[0], t);
  }

  /** The first id adds the task found for it, if any. */
  lemma LookUpHead(pending: seq<Task>, ids: seq<int>, t: Task)
    requires ids != []
    ensures var f := FindById(pending, ids[0]);
      multiset(LookUp(pending, ids))[t] == (if f == Some(t) then 1 else 0) + multiset(LookUp(pending, ids[1..]))[t]
  {
  }

  /** In a list without repeated ids, an id finds `t` exactly when it is
      `t`'s id and `t` is in the list. */
  lemma FoundIsTask(pending: seq<Task>, id: int, t: Task)
    requires TaskJson.UniqueIds(pending)
    ensures FindById(pending, id) == Some(t) <==> t in pending && id == t.id
  {
    if t in pending && id == t.id {
      FindByIdUnique(pending, t);
    }
  }

  /** In a list without repeated ids every task, and every id, occurs once. */
  lemma {:induction false} UniqueCounts(s: seq<Task>, t: Task)
    requires TaskJson.UniqueIds(s) && t in s
    ensures multiset(s)[t] == 1 && multiset(TaskJson.Ids(s))[t.id] == 1
  {
    CountsAtHead(s, t);
    if s[0] == t {
      HeadIdAbsent(s);
      IdAbsent(s[1..], t);
    } else {
      UniqueTail(s, t);
      UniqueCounts(s[1..], t);
    }
  }

  /** Both counts split into the head's share and the tail's. */
  lemma CountsAtHead(s: seq<Task>, t: Task)
    requires s != []
    ensures multiset(s)[t] == (if s[0] == t then 1 else 0) + multiset(s[1..])[t]
    ensures multiset(TaskJson.Ids(s))[t.id] == (if s[0].id == t.id then 1 else 0) + multiset(TaskJson.Ids(s[1..]))[t.id]
  {
    Seqs.MultisetHead(s, t);
    Seqs.MultisetHead(TaskJson.Ids(s), t.id);
  }

  /** Without repeated ids, no later task has the head's id. */
  lemma HeadIdAbsent(s: seq<Task>)
    requires s != [] && TaskJson.UniqueIds(s)
    ensures forall i :: 0 <= i < |s[1..]| ==> s[1..][i].id != s[0].id
  {
    forall i | 0 <= i < |s[1..]| ensures s[1..][i].id != s[0].id {
      assert s[1..][i] == s[i + 1];
    }
  }

  /** A task behind the head is in the tail, which has no repeated ids,
      and has an id other than the head's. */
  lemma UniqueTail(s: seq<Task>, t: Task)
    requires TaskJson.UniqueIds(s) && t in s && s[0] != t
    ensures TaskJson.UniqueIds(s[1..]) && t in s[1..] && s[0].id != t.id
  {
    var m :| 0 <= m < |s| && s[m] == t;
    assert m != 0;
    assert s[1..][m - 1] == t;
  }

  lemma IdAbsent(s: seq<Task>, t: Task)
    requires forall i :: 0 <= i < |s| ==> s[i].id != t.id
    ensures multiset(s)[t] == 0 && multiset(TaskJson.Ids(s))[t.id] == 0
  {
    assert t !in s;
    assert t.id !in TaskJson.Ids(s);
  }

  /** How often each task appears after reordering, in a list without
      repeated ids: a pending task as often as `orderArray` lists its id
      (none of the unlisted, two of one listed twice), a completed task as
      before, any other task never. */
  lemma ReorderedCount(tasks: seq<Task>, orderArray: seq<int>, t: Task)
    requires TaskJson.UniqueIds(tasks)
    ensures multiset(Reordered(tasks, orderArray))[t]
         == if TaskJson.IsPending(t) && t in tasks then multiset(orderArray)[t.id]
            else if TaskJson.IsCompleted(t) then multiset(tasks)[t]
            else 0
  {
    var pending := Seqs.Filter(tasks, TaskJson.IsPendingFn());
    var completed := Seqs.Filter(tasks, TaskJson.IsCompletedFn());
    FilterUnique(tasks, TaskJson.IsPendingFn());
    LookUpCount(pending, orderArray, t);
    Seqs.FilterMultiset(tasks, TaskJson.IsPendingFn(), t);
    Seqs.FilterMultiset(tasks, TaskJson.IsCompletedFn(), t);
    assert t in pending <==> TaskJson.IsPending(t) && t in tasks by {
      assert t in pending <==> multiset(pending)[t] > 0;
      assert t in tasks <==> multiset(tasks)[t] > 0;
    }
  }

  /** Looking up every id of a list without repeated ids, each once and in
      any order, yields the same tasks in that order. */
  lemma LookUpPermutes(pending: seq<Task>, ids: seq<int>)
    requires TaskJson.UniqueIds(pending)
    requires multiset(ids) == multiset(TaskJson.Ids(pending))
    ensures multiset(LookUp(pending, ids)) == multiset(pending)
  {
    forall t ensures multiset(LookUp(pending, ids))[t] == multiset(pending)[t] {
      LookUpCount(pending, ids, t);
      if t in pending {
        UniqueCounts(pending, t);
      }
    }
  }

  lemma StatusExclusive(t: Task)
    ensures !(TaskJson.IsPending(t) && TaskJson.IsCompleted(t))
  {
    assert TaskJson.Pending[0] != TaskJson.Completed[0];
  }

  /** When ids are unique, every task is pending or completed and
      `orderArray` lists every pending id once, reordering is a
      permutation. */
  lemma ReorderedPermutes(tasks: seq<Task>, orderArray: seq<int>)
    requires TaskJson.UniqueIds(tasks)
    requires forall i :: 0 <= i < |tasks| ==> TaskJson.IsPending(tasks[i]) || TaskJson.IsCompleted(tasks[i])
    requires multiset(orderArray) == multiset(TaskJson.Ids(Seqs.Filter(tasks, TaskJson.IsPendingFn())))
    ensures multiset(Reordered(tasks, orderArray)) == multiset(tasks)
  {
    PendingLookUpPermutes(tasks, orderArray);
    StatusPartition(tasks);
    ReorderedFromParts(tasks, orderArray);
  }

  lemma PendingLookUpPermutes(tasks: seq<Task>, orderArray: seq<int>)
    requires TaskJson.UniqueIds(tasks)
    requires multiset(orderArray) == multiset(TaskJson.Ids(Seqs.Filter(tasks, TaskJson.IsPendingFn())))
    ensures multiset(LookUp(Seqs.Filter(tasks, TaskJson.IsPendingFn()), orderArray)) == multiset(Seqs.Filter(tasks, TaskJson.IsPendingFn()))
  {
    FilterUnique(tasks, TaskJson.IsPendingFn());
    LookUpPermutes(Seqs.Filter(tasks, TaskJson.IsPendingFn()), orderArray);
  }

  lemma ReorderedFromParts(tasks: seq<Task>, orderArray: seq<int>)
    requires multiset(LookUp(Seqs.Filter(tasks, TaskJson.IsPendingFn()), orderArray)) == multiset(Seqs.Filter(tasks, TaskJson.IsPendingFn()))
    requires multiset(Seqs.Filter(tasks, TaskJson.IsPendingFn())) + multiset(Seqs.Filter(tasks, TaskJson.IsCompletedFn())) == multiset(tasks)
    ensures multiset(Reordered(tasks, orderArray)) == multiset(tasks)
  {
    ReorderedMultiset(tasks, orderArray);
  }

  lemma ReorderedMultiset(tasks: seq<Task>, orderArray: seq<int>)
    ensures multiset(Reordered(tasks, orderArray))
         == multiset(LookUp(Seqs.Filter(tasks, TaskJson.IsPendingFn()), orderArray)) + multiset(Seqs.Filter(tasks, TaskJson.IsCompletedFn()))
  {
  }

  /** A list whose every entry is pending or completed is the union of its
      pending and its completed part. */
  lemma {:induction false} StatusPartition(tasks: seq<Task>)
    requires forall i :: 0 <= i < |tasks| ==> TaskJson.IsPending(tasks[i]) || TaskJson.IsCompleted(tasks[i])
    ensures multiset(Seqs.Filter(tasks, TaskJson.IsPendingFn())) + multiset(Seqs.Filter(tasks, TaskJson.IsCompletedFn())) == multiset(tasks)
  {
    if tasks != [] {
      TailStatuses(tasks);
      StatusPartition(tasks[1..]);
      StatusPartitionStep(tasks);
    }
  }

  lemma TailStatuses(tasks: seq<Task>)
    requires tasks != []
    requires forall i :: 0 <= i < |tasks| ==> TaskJson.IsPending(tasks[i]) || TaskJson.IsCompleted(tasks[i])
    ensures forall i :: 0 <= i < |tasks[1..]| ==> TaskJson.IsPending(tasks[1..][i]) || TaskJson.IsCompleted(tasks[1..][i])
  {
    forall i | 0 <= i < |tasks[1..]| ensures TaskJson.IsPending(tasks[1..][i]) || TaskJson.IsCompleted(tasks[1..][i]) {
      assert tasks[1..][i] == tasks[i + 1];
    }
  }

  lemma StatusPartitionStep(tasks: seq<Task>)
    requires tasks != [] && (TaskJson.IsPending(tasks[0]) || TaskJson.IsCompleted(tasks[0]))
    requires multiset(Seqs.Filter(tasks[1..], TaskJson.IsPendingFn())) + multiset(Seqs.Filter(tasks[1..], TaskJson.IsCompletedFn())) == multiset(tasks[1..])
    ensures multiset(Seqs.Filter(tasks, TaskJson.IsPendingFn())) + multiset(Seqs.Filter(tasks, TaskJson.IsCompletedFn())) == multiset(tasks)
  {
    assert tasks == [tasks[0]] + tasks[1..];
    StatusPartitionCons(tasks[0], tasks[1..]);
  }

  lemma StatusPartitionCons(x: Task, rest: seq<Task>)
    requires TaskJson.IsPending(x) || TaskJson.IsCompleted(x)
    requires multiset(Seqs.Filter(rest, TaskJson.IsPendingFn())) + multiset(Seqs.Filter(rest, TaskJson.IsCompletedFn())) == multiset(rest)
    ensures multiset(Seqs.Filter([x] + rest, TaskJson.IsPendingFn())) + multiset(Seqs.Filter([x] + rest, TaskJson.IsCompletedFn())) == multiset([x] + rest)
  {
    StatusExclusive(x);
    Seqs.FilterConsMultiset(x, rest, TaskJson.IsPendingFn());
    Seqs.FilterConsMultiset(x, rest, TaskJson.IsCompletedFn());
  }

  /** `toggleSubtask`'s request body: "pending" for a subtask shown as
      completed, "completed" for anything else, including a missing third
      argument. */
  function ToggledStatus(newStatus: Option<string>): (r: string)
    ensures r == TaskJson.Pending <==> newStatus == Some(TaskJson.Completed)
    ensures r == TaskJson.Completed <==> newStatus != Some(TaskJson.Completed)
  {
    if newStatus == Some(TaskJson.Completed) then TaskJson.Pending else TaskJson.Completed
  }

  const CreateFallback: string := "Failed to create task"
  const UpdateFallback: string := "Failed to update task"
  const DeleteFallback: string := "Failed to delete task"
  const CompleteFallback: string := "Failed to mark complete"
  const PendingFallback: string := "Failed to mark pending"
  const OrderFallback: string := "Failed to update order"
  const RecurringFallback: string := "Failed to create recurring task"
  const SubtaskFallback: string := "Failed to update subtask"

  class Store {
    var tasks: seq<Task>
    var loading: bool
    var error: Option<string>

    constructor ()
      ensures tasks == [] && !loading && error == None
    {
      tasks := [];
      loading := false;
      error := None;
    }

    /** `fetchTasks`: the error is cleared first; a failure records the
        rejection's message and is not rethrown; loading ends false. */
    method FetchTasks(reply: Reply<seq<Task>>)
      modifies this
      ensures !loading
      ensures reply.Success? ==> tasks == reply.value && error == None
      ensures reply.Failure? ==> tasks == old(tasks) && error == Some(reply.error.message)
    {
      loading := true;
      error := None;
      if reply.Success? {
        tasks := reply.value;
      } else {
        error := Some(reply.error.message);
      }
      loading := false;
    }

    /** The mount effect: the list is fetched only when an access token is
        stored (and is not empty); otherwise nothing changes. */
    method Mount(storage: LocalStorage.Storage, reply: Reply<seq<Task>>) returns (fetched: bool)
      modifies this
      ensures fetched <==> LocalStorage.Truthy(LocalStorage.Get(storage.items, LocalStorage.AccessToken))
      ensures fetched && reply.Success? ==> tasks == reply.value && error == None && !loading
      ensures fetched && reply.Failure? ==> tasks == old(tasks) && error == Some(reply.error.message) && !loading
      ensures !fetched ==> tasks == old(tasks) && error == old(error) && loading == old(loading)
    {
      fetched := LocalStorage.Truthy(LocalStorage.Get(storage.items, LocalStorage.AccessToken));
      if fetched {
        FetchTasks(reply);
      }
    }

    /** The failure path shared by every operation: the list is kept, the
        error text is recorded, and the rejection is passed on. */
    method Fail<T>(e: HttpError, fallback: string) returns (r: Reply<T>)
      modifies this
      ensures r == Failure(e)
      ensures tasks == old(tasks) && loading == old(loading) && error == Some(ErrorText(e, fallback))
    {
      error := Some(ErrorText(e, fallback));
      r := Failure(e);
    }

    /** `createTask` and `createRecurringTask`: the server's task goes in
        front of the list. */
    method Prepend(reply: Reply<Task>, fallback: string) returns (r: Reply<Task>)
      modifies this
      ensures r == reply && loading == old(loading)
      ensures reply.Success? ==> tasks == [reply.value] + old(tasks) && error == old(error)
      ensures reply.Failure? ==> tasks == old(tasks) && error == Some(ErrorText(reply.error, fallback))
    {
      match reply
      case Success(t) =>
        tasks := [t] + tasks;
        r := reply;
      case Failure(e) =>
        r := Fail(e, fallback);
    }

    method CreateTask(reply: Reply<Task>) returns (r: Reply<Task>)
      modifies this
      ensures r == reply && loading == old(loading)
      ensures reply.Success? ==> tasks == [reply.value] + old(tasks) && error == old(error)
      ensures reply.Failure? ==> tasks == old(tasks) && error == Some(ErrorText(reply.error, CreateFallback))
    {
      r := Prepend(reply, CreateFallback);
    }

    method CreateRecurringTask(reply: Reply<Task>) returns (r: Reply<Task>)
      modifies this
      ensures r == reply && loading == old(loading)
      ensures reply.Success? ==> tasks == [reply.value] + old(tasks) && error == old(error)
      ensures reply.Failure? ==> tasks == old(tasks) && error == Some(ErrorText(reply.error, RecurringFallback))
    {
      r := Prepend(reply, RecurringFallback);
    }

    /** `updateTask`, `markComplete` and `markPending`: every entry with the
        id is replaced by the server's task. */
    method Replace(id: int, reply: Reply<Task>, fallback: string) returns (r: Reply<Task>)
      modifies this
      ensures r == reply && loading == old(loading)
      ensures reply.Success? ==> tasks == ReplaceById(old(tasks), id, reply.value) && error == old(error)
      ensures reply.Failure? ==> tasks == old(tasks) && error == Some(ErrorText(reply.error, fallback))
    {
      match reply
      case Success(t) =>
        tasks := ReplaceById(tasks, id, t);
        r := reply;
      case Failure(e) =>
        r := Fail(e, fallback);
    }

    method UpdateTask(id: int, reply: Reply<Task>) returns (r: Reply<Task>)
      modifies this
      ensures r == reply && loading == old(loading)
      ensures reply.Success? ==> tasks == ReplaceById(old(tasks), id, reply.value) && error == old(error)
      ensures reply.Failure? ==> tasks == old(tasks) && error == Some(ErrorText(reply.error, UpdateFallback))
    {
      r := Replace(id, reply, UpdateFallback);
    }

    method MarkComplete(id: int, reply: Reply<Task>) returns (r: Reply<Task>)
      modifies this
      ensures r == reply && loading == old(loading)
      ensures reply.Success? ==> tasks == ReplaceById(old(tasks), id, reply.value) && error == old(error)
      ensures reply.Failure? ==> tasks == old(tasks) && error == Some(ErrorText(reply.error, CompleteFallback))
    {
      r := Replace(id, reply, CompleteFallback);
    }

    method MarkPending(id: int, reply: Reply<Task>) returns (r: Reply<Task>)
      modifies this
      ensures r == reply && loading == old(loading)
      ensures reply.Success? ==> tasks == ReplaceById(old(tasks), id, reply.value) && error == old(error)
      ensures reply.Failure? ==> tasks == old(tasks) && error == Some(ErrorText(reply.error, PendingFallback))
    {
      r := Replace(id, reply, PendingFallback);
    }

    /** `deleteTask` */
    method DeleteTask(id: int, reply: Reply<()>) returns (r: Reply<()>)
      modifies this
      ensures r == reply && loading == old(loading)
      ensures reply.Success? ==> tasks == RemoveById(old(tasks), id) && error == old(error)
      ensures reply.Failure? ==> tasks == old(tasks) && error == Some(ErrorText(reply.error, DeleteFallback))
    {
      match reply
      case Success(_) =>
        tasks := RemoveById(tasks, id);
        r := reply;
      case Failure(e) =>
        r := Fail(e, DeleteFallback);
    }

    /** `updateTaskOrder`: the new order is installed before the server is
        called and stays when the call fails. */
    method UpdateTaskOrder(orderArray: seq<int>, reply: Reply<()>) returns (r: Reply<bool>)
      modifies this
      ensures tasks == Reordered(old(tasks), orderArray) && loading == old(loading)
      ensures reply.Success? ==> r == Success(true) && error == old(error)
      ensures reply.Failure? ==> r == Failure(reply.error) && error == Some(ErrorText(reply.error, OrderFallback))
    {
      tasks := Reordered(tasks, orderArray);
      match reply
      case Success(_) =>
        r := Success(true);
      case Failure(e) =>
        r := Fail(e, OrderFallback);
    }

    /** `toggleSubtask`: returns the request body it sends and the reply. */
    method ToggleSubtask(newStatus: Option<string>, reply: Reply<TaskJson.Task>) returns (body: string, r: Reply<TaskJson.Task>)
      modifies this
      ensures body == ToggledStatus(newStatus)
      ensures r == reply && tasks == old(tasks) && loading == old(loading)
      ensures reply.Success? ==> error == old(error)
      ensures reply.Failure? ==> error == Some(ErrorText(reply.error, SubtaskFallback))
    {
      body := ToggledStatus(newStatus);
      r := Relay(reply, SubtaskFallback);
    }

    /** The operations that only pass the server's data on (notes, subtasks,
        time logs, comments, goals, theme, filter presets, statistics): the
        list is never touched. */
    method Relay<T>(reply: Reply<T>, fallback: string) returns (r: Reply<T>)
      modifies this
      ensures r == reply && tasks == old(tasks) && loading == old(loading)
      ensures reply.Success? ==> error == old(error)
      ensures reply.Failure? ==> error == Some(ErrorText(reply.error, fallback))
    {
      match reply
      case Success(_) =>
        r := reply;
      case Failure(e) =>
        r := Fail(e, fallback);
    }
  }
}
