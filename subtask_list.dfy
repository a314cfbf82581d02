/** The subtask panel, web/src/components/SubtaskList.jsx: the progress
    counts and the add form, which hands the title to `onAddSubtask`. */
module SubtaskList {
  import opened Wrappers
  import Seqs
  import Text
  import Api
  import TaskStore

  datatype Subtask = Subtask(id: int, title: string, status: string)

  function IsDoneFn(): Subtask -> bool
  {
    (s: Subtask) => s.status == "completed"
  }

  /** `completedCount`: never more than `totalCount`. */
  function CompletedCount(subtasks: seq<Subtask>): (n: nat)
    ensures n <= |subtasks|
    ensures n == |subtasks| <==> forall i :: 0 <= i < |subtasks| ==> subtasks[i].status == "completed"
  {
    AllKept(subtasks);
    Seqs.Count(subtasks, IsDoneFn())
  }

  /** The filter keeps everything exactly when every element passes. */
  lemma {:induction false} AllKept(subtasks: seq<Subtask>)
    ensures |Seqs.Filter(subtasks, IsDoneFn())| == |subtasks| <==>
      forall i :: 0 <= i < |subtasks| ==> subtasks[i].status == "completed"
  {
    if subtasks != [] {
      AllKept(subtasks[1..]);
      Seqs.FilterHead(subtasks, IsDoneFn());
      if forall i :: 0 <= i < |subtasks| ==> subtasks[i].status == "completed" {
        assert forall i :: 0 <= i < |subtasks[1..]| ==> subtasks[1..][i].status == "completed" by {
          forall i | 0 <= i < |subtasks[1..]| ensures subtasks[1..][i].status == "completed" {
            assert subtasks[1..][i] == subtasks[i + 1];
          }
        }
      } else if subtasks[0].status == "completed" {
        var i :| 0 <= i < |subtasks| && subtasks[i].status != "completed";
        assert subtasks[1..][i - 1] == subtasks[i];
      }
    }
  }

  /** The `(completed/total)` label and the progress bar, shown only when
      there is a subtask. */
  function Progress(subtasks: seq<Subtask>): (p: Option<(nat, nat)>)
    ensures p.Some? <==> |subtasks| > 0
    ensures p.Some? ==> p.value == (CompletedCount(subtasks), |subtasks|) && p.value.0 <= p.value.1
  {
    if |subtasks| > 0 then Some((CompletedCount(subtasks), |subtasks|)) else None
  }

  /** The checkbox calls `onToggleSubtask(taskId, subtask.id)`: two
      arguments, no status. */
  function ToggleArguments(taskId: int, subtask: Subtask): (args: (int, int, Option<string>))
    ensures args == (taskId, subtask.id, None)
  {
    (taskId, subtask.id, None)
  }

  /** Were that callback the store's `toggleSubtask`, the missing third
      argument would make every click send "completed", even for a
      completed subtask. */
  lemma ToggleWithoutStatus(taskId: int, subtask: Subtask)
    ensures TaskStore.ToggledStatus(ToggleArguments(taskId, subtask).2) == "completed"
  {
  }

  class Panel {
    var showAddSubtask: bool
    var newSubtaskTitle: string

    constructor ()
      ensures !showAddSubtask && newSubtaskTitle == ""
    {
      showAddSubtask := false;
      newSubtaskTitle := "";
    }

    /** `handleAddSubtask`: a blank title sends nothing; any other title is
        sent as typed, without trimming. Only when the call resolves is the
        input cleared and the form closed; a rejection is not caught and
        leaves both as they were. */
    method HandleAddSubtask(reply: Api.Reply<Subtask>) returns (sent: Option<string>)
      modifies this
      ensures sent.Some? <==> !Text.IsBlank(old(newSubtaskTitle))
      ensures sent.Some? ==> sent.value == old(newSubtaskTitle)
      ensures sent.Some? && reply.Success? ==> newSubtaskTitle == "" && !showAddSubtask
      ensures sent.None? || reply.Failure? ==>
        newSubtaskTitle == old(newSubtaskTitle) && showAddSubtask == old(showAddSubtask)
    {
      sent := None;
      if !Text.IsBlank(newSubtaskTitle) {
        sent := Some(newSubtaskTitle);
        if reply.Success? {
          newSubtaskTitle := "";
          showAddSubtask := false;
        }
      }
    }
  }
}
