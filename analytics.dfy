/** The analytics page, web/src/pages/Analytics.jsx: completions per day
    over the last thirty days, the completion rate, the summary cards and
    the per-priority table. The productivity statistics it fetches are only
    displayed. */
module Analytics {
  import Seqs
  import TaskJson
  import Stats

  type Task = TaskJson.Task

  /** `last30Days`: thirty bars ending today. `updated_at?.split(...)` makes
      a completed task without `updated_at` count on no day. */
  method LastThirtyDays(tasks: seq<Task>, today: int) returns (days: seq<Stats.DayCount>)
    ensures |days| == 30 && days[29].day == today
    ensures forall k :: 0 <= k < 30 ==> days[k].day == today - 29 + k
    ensures forall k :: 0 <= k < 30 ==> days[k].completed == Stats.CompletedCount(tasks, days[k].day)
  {
    days := Stats.LastDays(tasks, today, 30);
  }

  /** A task without `updated_at` is counted on no day. */
  lemma NoUpdateNeverCounted(t: Task, day: int)
    requires t.updatedAt.None?
    ensures !Stats.CompletedOn(t, day)
  {
  }

  /** The four cards: total, completed, the rate, and "Pending", which is
      the total minus the completed tasks rather than a count of pending
      ones. */
  datatype Cards = Cards(total: nat, completed: nat, rate: nat, pending: int)

  function CardsOf(tasks: seq<Task>): (c: Cards)
    ensures c.total == |tasks| && c.completed == Stats.SummaryOf(tasks).completed
    ensures c.rate == Stats.CompletionRate(c.completed, c.total) && c.rate <= 100
    ensures c.pending == c.total - c.completed
    ensures c.pending >= Stats.SummaryOf(tasks).pending
  {
    var completed := Seqs.Count(tasks, TaskJson.IsCompletedFn());
    Stats.StatusCountsBounded(tasks);
    Stats.CompletionRateRange(completed, |tasks|);
    Cards(|tasks|, completed, Stats.CompletionRate(completed, |tasks|), |tasks| - completed)
  }

  /** The "Pending" card equals the count of pending tasks exactly when
      every task is pending or completed. */
  lemma PendingCardIsPendingCount(tasks: seq<Task>)
    ensures CardsOf(tasks).pending == Stats.SummaryOf(tasks).pending
      <==> forall i :: 0 <= i < |tasks| ==> TaskJson.IsPending(tasks[i]) || TaskJson.IsCompleted(tasks[i])
  {
    Seqs.CountComplement(tasks, TaskJson.IsCompletedFn(), NotCompletedFn());
    Seqs.CountMonotone(tasks, TaskJson.IsPendingFn(), NotCompletedFn());
    if forall i :: 0 <= i < |tasks| ==> TaskJson.IsPending(tasks[i]) || TaskJson.IsCompleted(tasks[i]) {
      Seqs.FilterSame(tasks, TaskJson.IsPendingFn(), NotCompletedFn());
    } else {
      var i :| 0 <= i < |tasks| && !TaskJson.IsPending(tasks[i]) && !TaskJson.IsCompleted(tasks[i]);
      CountStrict(tasks, i);
    }
  }

  function NotCompletedFn(): Task -> bool
  {
    (t: Task) => !TaskJson.IsCompleted(t)
  }

  /** A task that is neither pending nor completed makes the pending count
      fall short of the not-completed count. */
  lemma {:induction false} CountStrict(tasks: seq<Task>, i: int)
    requires 0 <= i < |tasks| && !TaskJson.IsPending(tasks[i]) && !TaskJson.IsCompleted(tasks[i])
    ensures Seqs.Count(tasks, TaskJson.IsPendingFn()) < Seqs.Count(tasks, NotCompletedFn())
  {
    CountsAtHead(tasks);
    if i == 0 {
      Seqs.CountMonotone(tasks[1..], TaskJson.IsPendingFn(), NotCompletedFn());
    } else {
      assert tasks[1..][i - 1] == tasks[i];
      CountStrict(tasks[1..], i - 1);
    }
  }

  /** Both counts split into the head's share and the tail's; a pending
      head counts on both sides. */
  lemma CountsAtHead(tasks: seq<Task>)
    requires tasks != []
    ensures Seqs.Count(tasks, TaskJson.IsPendingFn())
         == (if TaskJson.IsPending(tasks[0]) then 1 else 0) + Seqs.Count(tasks[1..], TaskJson.IsPendingFn())
    ensures Seqs.Count(tasks, NotCompletedFn())
         == (if !TaskJson.IsCompleted(tasks[0]) then 1 else 0) + Seqs.Count(tasks[1..], NotCompletedFn())
    ensures TaskJson.IsPending(tasks[0]) ==> !TaskJson.IsCompleted(tasks[0])
  {
    Seqs.FilterHead(tasks, TaskJson.IsPendingFn());
    Seqs.FilterHead(tasks, NotCompletedFn());
    assert TaskJson.Pending[0] != TaskJson.Completed[0];
  }

  /** One row of `priorityCompletionData`. */
  datatype PriorityRow = PriorityRow(name: string, completed: nat, pending: nat)

  function HasStatus(status: string): Task -> bool
  {
    (t: Task) => t.status == status
  }

  function WithPriorityAndStatus(p: string, status: string): Task -> bool
  {
    (t: Task) => t.priority == p && t.status == status
  }

  function Row(tasks: seq<Task>, name: string, p: string): (r: PriorityRow)
    ensures r.name == name
    ensures r.completed == Seqs.Count(tasks, WithPriorityAndStatus(p, TaskJson.Completed))
    ensures r.pending == Seqs.Count(tasks, WithPriorityAndStatus(p, TaskJson.Pending))
    ensures r.completed + r.pending <= Seqs.Count(tasks, TaskJson.HasPriority(p))
  {
    Seqs.CountDisjoint(Seqs.Filter(tasks, TaskJson.HasPriority(p)), HasStatus(TaskJson.Completed), HasStatus(TaskJson.Pending));
    RestrictedCount(tasks, p, TaskJson.Completed);
    RestrictedCount(tasks, p, TaskJson.Pending);
    PriorityRow(name, Seqs.Count(tasks, WithPriorityAndStatus(p, TaskJson.Completed)),
      Seqs.Count(tasks, WithPriorityAndStatus(p, TaskJson.Pending)))
  }

  /** Counting by priority and status is counting by status among the
      tasks of that priority. */
  lemma RestrictedCount(tasks: seq<Task>, p: string, status: string)
    ensures Seqs.Count(tasks, WithPriorityAndStatus(p, status))
         == Seqs.Count(Seqs.Filter(tasks, TaskJson.HasPriority(p)), HasStatus(status))
  {
    Seqs.FilterBoth(tasks, TaskJson.HasPriority(p), HasStatus(status), WithPriorityAndStatus(p, status));
  }

  /** The table: one row per priority, high, medium, low. */
  function PriorityTable(tasks: seq<Task>): (rows: seq<PriorityRow>)
    ensures |rows| == 3
    ensures rows[0] == Row(tasks, "High Priority", "high")
    ensures rows[1] == Row(tasks, "Medium Priority", "medium")
    ensures rows[2] == Row(tasks, "Low Priority", "low")
  {
    [Row(tasks, "High Priority", "high"), Row(tasks, "Medium Priority", "medium"), Row(tasks, "Low Priority", "low")]
  }

  /** The rows never count more completed tasks than the completed card,
      nor more pending tasks than there are. */
  lemma PriorityTableBounded(tasks: seq<Task>)
    ensures var rows := PriorityTable(tasks);
      rows[0].completed + rows[1].completed + rows[2].completed <= Stats.SummaryOf(tasks).completed
      && rows[0].pending + rows[1].pending + rows[2].pending <= Stats.SummaryOf(tasks).pending
  {
    ThreePriorities(tasks, TaskJson.Completed);
    ThreePriorities(tasks, TaskJson.Pending);
    Seqs.FilterSame(tasks, HasStatus(TaskJson.Completed), TaskJson.IsCompletedFn());
    Seqs.FilterSame(tasks, HasStatus(TaskJson.Pending), TaskJson.IsPendingFn());
  }

  lemma ThreePriorities(tasks: seq<Task>, status: string)
    ensures Seqs.Count(tasks, WithPriorityAndStatus("high", status))
          + Seqs.Count(tasks, WithPriorityAndStatus("medium", status))
          + Seqs.Count(tasks, WithPriorityAndStatus("low", status))
         <= Seqs.Count(tasks, HasStatus(status))
  {
    Seqs.CountThree(Seqs.Filter(tasks, HasStatus(status)), TaskJson.HasPriority("high"), TaskJson.HasPriority("medium"), TaskJson.HasPriority("low"));
    SwappedCount(tasks, "high", status);
    SwappedCount(tasks, "medium", status);
    SwappedCount(tasks, "low", status);
  }

  /** The same count, filtering by status first. */
  lemma SwappedCount(tasks: seq<Task>, p: string, status: string)
    ensures Seqs.Count(tasks, WithPriorityAndStatus(p, status))
         == Seqs.Count(Seqs.Filter(tasks, HasStatus(status)), TaskJson.HasPriority(p))
  {
    Seqs.FilterBoth(tasks, HasStatus(status), TaskJson.HasPriority(p), WithPriorityAndStatus(p, status));
  }
}
