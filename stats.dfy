/** The statistics page, web/src/pages/Stats.jsx: status and priority
    counts, completions per day over the last week, and the completion
    rate. Dates are day numbers: `today` stands for the date of `new Date()`
    and an instant's date part is `Models.DateOf`. */
module Stats {
  import Seqs
  import TaskJson
  import Models

  type Task = TaskJson.Task

  /** The counters at the top of the page. */
  datatype Summary = Summary(total: nat, completed: nat, pending: nat, high: nat, medium: nat, low: nat)

  function SummaryOf(tasks: seq<Task>): (s: Summary)
    ensures s.total == |tasks|
    ensures s.completed == Seqs.Count(tasks, TaskJson.IsCompletedFn())
    ensures s.pending == Seqs.Count(tasks, TaskJson.IsPendingFn())
    ensures s.high == Seqs.Count(tasks, TaskJson.HasPriority("high"))
    ensures s.medium == Seqs.Count(tasks, TaskJson.HasPriority("medium"))
    ensures s.low == Seqs.Count(tasks, TaskJson.HasPriority("low"))
  {
    Summary(|tasks|,
      Seqs.Count(tasks, TaskJson.IsCompletedFn()), Seqs.Count(tasks, TaskJson.IsPendingFn()),
      Seqs.Count(tasks, TaskJson.HasPriority("high")), Seqs.Count(tasks, TaskJson.HasPriority("medium")),
      Seqs.Count(tasks, TaskJson.HasPriority("low")))
  }

  /** Completed and pending never add up to more than all tasks. */
  lemma StatusCountsBounded(tasks: seq<Task>)
    ensures SummaryOf(tasks).completed + SummaryOf(tasks).pending <= SummaryOf(tasks).total
  {
    Seqs.CountDisjoint(tasks, TaskJson.IsCompletedFn(), TaskJson.IsPendingFn());
  }

  predicate KnownPriority(t: Task)
  {
    t.priority == "high" || t.priority == "medium" || t.priority == "low"
  }

  /** The three priority counts add up to at most all tasks, and to exactly
      all tasks when every priority is one of the three. */
  lemma PriorityCountsBounded(tasks: seq<Task>)
    ensures SummaryOf(tasks).high + SummaryOf(tasks).medium + SummaryOf(tasks).low <= |tasks|
    ensures (forall i :: 0 <= i < |tasks| ==> KnownPriority(tasks[i])) ==>
      SummaryOf(tasks).high + SummaryOf(tasks).medium + SummaryOf(tasks).low == |tasks|
  {
    Seqs.CountThree(tasks, TaskJson.HasPriority("high"), TaskJson.HasPriority("medium"), TaskJson.HasPriority("low"));
  }

  /** One bar of the completions chart. The label the page shows is the
      locale rendering of `day`. */
  datatype DayCount = DayCount(day: int, completed: nat)

  /** Completed with its last update on `day`; a task without `updated_at`
      never is. */
  predicate CompletedOn(t: Task, day: int)
  {
    TaskJson.IsCompleted(t) && t.updatedAt.Some? && Models.DateOf(t.updatedAt.value) == day
  }

  function CompletedOnFn(day: int): Task -> bool
  {
    (t: Task) => CompletedOn(t, day)
  }

  /** The number of tasks completed on `day`: never more than the completed
      tasks altogether. */
  function CompletedCount(tasks: seq<Task>, day: int): (n: nat)
    ensures n <= Seqs.Count(tasks, TaskJson.IsCompletedFn())
  {
    Seqs.CountMonotone(tasks, CompletedOnFn(day), TaskJson.IsCompletedFn());
    Seqs.Count(tasks, CompletedOnFn(day))
  }

  /** The loop building the chart: `n` bars, oldest first, the last one
      for today, each counting the tasks completed on its day. */
  method LastDays(tasks: seq<Task>, today: int, n: nat) returns (days: seq<DayCount>)
    ensures |days| == n
    ensures forall k :: 0 <= k < n ==> days[k] == DayCount(today - (n - 1) + k, CompletedCount(tasks, today - (n - 1) + k))
  {
    days := [];
    for i := n downto 0
      invariant |days| == n - i
      invariant forall k :: 0 <= k < |days| ==> days[k] == DayCount(today - (n - 1) + k, CompletedCount(tasks, today - (n - 1) + k))
    {
      var day := today - i;
      var count := CompletedCount(tasks, day);
      days := days + [DayCount(day, count)];
    }
  }

  /** Stats.jsx reads `t.updated_at.split(...)` without `?.`: a completed
      task without `updated_at` would throw, so the page needs every
      completed task to carry one. */
  predicate CompletedHaveUpdate(tasks: seq<Task>)
  {
    forall i :: 0 <= i < |tasks| && TaskJson.IsCompleted(tasks[i]) ==> tasks[i].updatedAt.Some?
  }

  /** `last7Days`: seven bars ending today. */
  method LastSevenDays(tasks: seq<Task>, today: int) returns (days: seq<DayCount>)
    requires CompletedHaveUpdate(tasks)
    ensures |days| == 7 && days[6].day == today
    ensures forall k :: 0 <= k < 7 ==> days[k].day == today - 6 + k
    ensures forall k :: 0 <= k < 7 ==> days[k].completed == CompletedCount(tasks, days[k].day)
    ensures forall k :: 0 <= k < 7 ==> days[k].completed <= SummaryOf(tasks).completed
  {
    days := LastDays(tasks, today, 7);
  }

  /** `Math.round(completed / total * 100)`, or 0 without tasks. Rounding
      is to the nearest integer with halves up, which `Math.round` does for
      non-negative numbers; floating-point error is not modelled. */
  function CompletionRate(completed: nat, total: nat): (r: nat)
    ensures total == 0 ==> r == 0
  {
    if total > 0 then (200 * completed + total) / (2 * total) else 0
  }

  /** The rate is the integer nearest to `100 * completed / total`, halves
      rounded up. */
  lemma CompletionRateNearest(completed: nat, total: nat)
    requires total > 0
    ensures var r := CompletionRate(completed, total);
      200 * completed - total < 2 * total * r <= 200 * completed + total
  {
    var x, d := 200 * completed + total, 2 * total;
    var r := x / d;
    assert x == d * r + x % d;
  }

  /** With no more completed tasks than tasks the rate is a percentage; it
      is 100 when every task is completed and 0 when none is. */
  lemma CompletionRateRange(completed: nat, total: nat)
    requires completed <= total
    ensures 0 <= CompletionRate(completed, total) <= 100
    ensures total > 0 && completed == total ==> CompletionRate(completed, total) == 100
    ensures completed == 0 ==> CompletionRate(completed, total) == 0
  {
    if total > 0 {
      CompletionRateNearest(completed, total);
      var r := CompletionRate(completed, total);
      AtMostHundred(completed, total, r);
      if completed == total {
        AtLeastHundred(total, r);
      }
    }
  }

  lemma AtMostHundred(c: nat, t: nat, r: nat)
    requires 0 < t && c <= t && 2 * t * r <= 200 * c + t
    ensures r <= 100
  {
    if r > 100 {
      MulMonotone(2 * t, 101, r);
    }
  }

  lemma AtLeastHundred(t: nat, r: nat)
    requires 0 < t && 200 * t - t < 2 * t * r
    ensures r >= 100
  {
    if r < 100 {
      MulMonotone(2 * t, r, 99);
    }
  }

  lemma MulMonotone(a: nat, b: nat, c: nat)
    requires b <= c
    ensures a * b <= a * c
  {
    assert a * c == a * b + a * (c - b);
  }

  /** The page's completion rate. */
  function PageRate(tasks: seq<Task>): (r: nat)
    ensures r <= 100
    ensures |tasks| == 0 ==> r == 0
  {
    StatusCountsBounded(tasks);
    CompletionRateRange(SummaryOf(tasks).completed, |tasks|);
    CompletionRate(SummaryOf(tasks).completed, |tasks|)
  }
}
