/** The task list of web/src/pages/DashboardOld.jsx: the search and filter
    step, the sort by the chosen key, the pending/completed split of the
    sorted list, the counters over the unfiltered list and the deadline
    badge. Every value is computed from the store's task list, the three
    filter inputs, the sort key and, for the badge, the current instant. */
module TaskListView {
  import opened Wrappers
  import Seqs
  import Text
  import TaskJson
  import Models
  import Serializers
  import Sorting

  type Task = TaskJson.Task

  const All: string := "all"

  // Search and filters

  /** The filter callback: the search text occurs, ignoring case, in the
      title or in the description, and the priority and category match
      their filters unless those are "all". */
  predicate Matches(t: Task, search: string, priority: string, category: string)
  {
    var q := Text.Lower(search);
    (Text.Contains(Text.Lower(t.title), q) || Text.Contains(Text.Lower(t.description), q))
    && (priority == All || t.priority == priority)
    && (category == All || t.category == category)
  }

  function MatchesFn(search: string, priority: string, category: string): Task -> bool
  {
    t => Matches(t, search, priority, category)
  }

  /** `tasks.filter(...)`: the tasks that match, in their original order. */
  function Filtered(tasks: seq<Task>, search: string, priority: string, category: string): (r: seq<Task>)
    ensures Seqs.IsSubsequence(r, tasks)
    ensures forall i :: 0 <= i < |r| ==> Matches(r[i], search, priority, category)
    ensures forall i :: 0 <= i < |tasks| && Matches(tasks[i], search, priority, category) ==> tasks[i] in r
  {
    Seqs.FilterIsSubsequence(tasks, MatchesFn(search, priority, category));
    Seqs.Filter(tasks, MatchesFn(search, priority, category))
  }

  /** With an empty search and both filters at "all", every task is shown. */
  lemma FilteredKeepsAll(tasks: seq<Task>)
    ensures Filtered(tasks, "", All, All) == tasks
  {
    forall i | 0 <= i < |tasks| ensures Matches(tasks[i], "", All, All) {
      Text.ContainsEmpty(Text.Lower(tasks[i].title));
    }
    Seqs.FilterAll(tasks, MatchesFn("", All, All));
  }

  /** Filtering the filtered list again changes nothing. */
  lemma FilteredIdempotent(tasks: seq<Task>, search: string, priority: string, category: string)
    ensures Filtered(Filtered(tasks, search, priority, category), search, priority, category)
         == Filtered(tasks, search, priority, category)
  {
    Seqs.FilterIdempotent(tasks, MatchesFn(search, priority, category));
  }

  // Sorting

  datatype SortKey = ByDeadline | ByPriority | ByStatus | ByCreated

  /** The `sortBy` select: any value other than the three named keys falls
      to the creation-time branch. */
  function SortKeyOf(sortBy: string): (k: SortKey)
    ensures k == ByCreated <==> sortBy != "deadline" && sortBy != "priority" && sortBy != "status"
  {
    if sortBy == "deadline" then ByDeadline
    else if sortBy == "priority" then ByPriority
    else if sortBy == "status" then ByStatus
    else ByCreated
  }

  /** `priorityOrder[p]`; `None` for a string the table lacks. */
  function PriorityRank(p: string): Option<int>
  {
    if p == "high" then Some(0)
    else if p == "medium" then Some(1)
    else if p == "low" then Some(2)
    else None
  }

  /** `statusOrder[label] || 3`: `overdue` maps to 0, which is falsy, so it
      falls to 3 like `completed` and a missing label. */
  function StatusRank(statusLabel: Option<string>): (r: int)
    ensures r == 1 <==> statusLabel == Some("today")
    ensures r == 2 <==> statusLabel == Some("upcoming")
    ensures r == 3 <==> statusLabel != Some("today") && statusLabel != Some("upcoming")
  {
    var statusOrder := map["overdue" := 0, "today" := 1, "upcoming" := 2];
    if statusLabel.Some? && statusLabel.value in statusOrder && statusOrder[statusLabel.value] != 0
    then statusOrder[statusLabel.value] else 3
  }

  /** The comparator passed to `sort`. A subtraction involving an unknown
      priority is `NaN`, which `sort` reads as 0. */
  function Compare(order: SortKey, a: Task, b: Task): int
  {
    match order
    case ByDeadline =>
      if a.deadline.None? then 1
      else if b.deadline.None? then -1
      else a.deadline.value - b.deadline.value
    case ByPriority =>
      var pa := PriorityRank(a.priority);
      var pb := PriorityRank(b.priority);
      if pa.Some? && pb.Some? then pa.value - pb.value else 0
    case ByStatus => StatusRank(a.statusLabel) - StatusRank(b.statusLabel)
    case ByCreated => b.createdAt - a.createdAt
  }

  function CompareFn(order: SortKey): (Task, Task) -> int
  {
    (a, b) => Compare(order, a, b)
  }

  /** `[...filteredTasks].sort(cmp)`: whatever the key, sorting neither
      adds nor loses a task. */
  function Sort(order: SortKey, s: seq<Task>): (r: seq<Task>)
    ensures |r| == |s|
    ensures multiset(r) == multiset(s)
  {
    Sorting.SortPermutes(CompareFn(order), s);
    Sorting.Sort(CompareFn(order), s)
  }

  /** The order each comparator induces, as a key compared
      lexicographically: deadlines ascending with undated tasks after all
      dated ones, priority rank, status rank, creation time descending. */
  function Key(order: SortKey, t: Task): (int, int)
  {
    match order
    case ByDeadline => if t.deadline.Some? then (0, t.deadline.value) else (1, 0)
    case ByPriority => (PriorityRank(t.priority).GetOr(0), 0)
    case ByStatus => (StatusRank(t.statusLabel), 0)
    case ByCreated => (-t.createdAt, 0)
  }

  function KeyFn(order: SortKey): Task -> (int, int)
  {
    t => Key(order, t)
  }

  /** The comparator can be read as a key; for priorities only when the
      priority is in the table. */
  predicate Ranked(order: SortKey, t: Task)
  {
    order == ByPriority ==> PriorityRank(t.priority).Some?
  }

  predicate AllRanked(order: SortKey, s: seq<Task>)
  {
    forall i :: 0 <= i < |s| ==> Ranked(order, s[i])
  }

  /** For ranked tasks the comparator is negative exactly when the first
      key is the smaller one. Two unknown priorities compare as 0 against
      every priority, so no key describes them. */
  lemma CompareIsKeyOrder(order: SortKey, a: Task, b: Task)
    requires Ranked(order, a) && Ranked(order, b)
    ensures Compare(order, a, b) < 0 <==> Sorting.KeyLess(Key(order, a), Key(order, b))
  {
  }

  lemma CompareAgrees(order: SortKey, s: seq<Task>)
    requires AllRanked(order, s)
    ensures Sorting.AgreesOn(CompareFn(order), KeyFn(order), s)
  {
    forall i, j | 0 <= i < |s| && 0 <= j < |s|
      ensures (CompareFn(order)(s[i], s[j]) < 0 <==> Sorting.KeyLess(KeyFn(order)(s[i]), KeyFn(order)(s[j]))) {
      CompareIsKeyOrder(order, s[i], s[j]);
    }
  }

  /** When every task is ranked, the sorted list has no inversion. */
  lemma SortSorted(order: SortKey, s: seq<Task>)
    requires AllRanked(order, s)
    ensures Sorting.SortedBy(KeyFn(order), Sort(order, s))
  {
    CompareAgrees(order, s);
    Sorting.SortSorted(CompareFn(order), KeyFn(order), s);
  }

  /** Tasks with equal keys keep their input order. */
  lemma SortStable(order: SortKey, s: seq<Task>, k: (int, int))
    requires AllRanked(order, s)
    ensures Seqs.Filter(Sort(order, s), Sorting.SameKey(KeyFn(order), k))
         == Seqs.Filter(s, Sorting.SameKey(KeyFn(order), k))
  {
    CompareAgrees(order, s);
    Sorting.SortStable(CompareFn(order), KeyFn(order), s, k);
  }

  /** Two positions of the sorted list are in key order. */
  lemma SortedPair(order: SortKey, s: seq<Task>, i: int, j: int)
    requires AllRanked(order, s) && 0 <= i < j < |s|
    ensures !Sorting.KeyLess(Key(order, Sort(order, s)[j]), Key(order, Sort(order, s)[i]))
  {
    SortSorted(order, s);
    var r := Sort(order, s);
    assert !Sorting.KeyLess(KeyFn(order)(r[j]), KeyFn(order)(r[i]));
  }

  /** Sorting keeps every task ranked. */
  lemma SortRanked(order: SortKey, s: seq<Task>)
    requires AllRanked(order, s)
    ensures AllRanked(order, Sort(order, s))
  {
    var r := Sort(order, s);
    forall i | 0 <= i < |r| ensures Ranked(order, r[i]) {
      assert r[i] in multiset(s);
    }
  }

  function UndatedFn(): Task -> bool
  {
    (t: Task) => t.deadline.None?
  }

  /** Sorting by priority: high before medium before low. */
  lemma SortByPriority(s: seq<Task>, i: int, j: int)
    requires AllRanked(ByPriority, s) && 0 <= i < j < |s|
    ensures var r := Sort(ByPriority, s);
      PriorityRank(r[i].priority).Some? && PriorityRank(r[j].priority).Some?
      && PriorityRank(r[i].priority).value <= PriorityRank(r[j].priority).value
  {
    SortRanked(ByPriority, s);
    SortedPair(ByPriority, s, i, j);
  }

  /** Tasks of equal priority keep their input order. */
  lemma SortByPriorityStable(s: seq<Task>, p: string)
    requires AllRanked(ByPriority, s)
    ensures Seqs.Filter(Sort(ByPriority, s), TaskJson.HasPriority(p)) == Seqs.Filter(s, TaskJson.HasPriority(p))
  {
    var r := Sort(ByPriority, s);
    SortRanked(ByPriority, s);
    if PriorityRank(p).Some? {
      SortStable(ByPriority, s, (PriorityRank(p).value, 0));
      SamePriorityFilter(r, p);
      SamePriorityFilter(s, p);
    } else {
      NoPriorityFilter(r, p);
      NoPriorityFilter(s, p);
    }
  }

  lemma SamePriorityFilter(s: seq<Task>, p: string)
    requires AllRanked(ByPriority, s) && PriorityRank(p).Some?
    ensures Seqs.Filter(s, TaskJson.HasPriority(p))
         == Seqs.Filter(s, Sorting.SameKey(KeyFn(ByPriority), (PriorityRank(p).value, 0)))
  {
    Seqs.FilterSame(s, TaskJson.HasPriority(p), Sorting.SameKey(KeyFn(ByPriority), (PriorityRank(p).value, 0)));
  }

  lemma NoPriorityFilter(s: seq<Task>, p: string)
    requires AllRanked(ByPriority, s) && PriorityRank(p).None?
    ensures Seqs.Filter(s, TaskJson.HasPriority(p)) == []
  {
    Seqs.FilterNone(s, TaskJson.HasPriority(p));
  }

  /** Sorting by creation time (the default key): newer tasks first. */
  lemma SortByCreated(s: seq<Task>, i: int, j: int)
    requires 0 <= i < j < |s|
    ensures Sort(ByCreated, s)[i].createdAt >= Sort(ByCreated, s)[j].createdAt
  {
    SortedPair(ByCreated, s, i, j);
  }

  /** Sorting by deadline: dated tasks in ascending deadline order, then
      every undated task, the undated ones in their input order. */
  lemma SortByDeadline(s: seq<Task>, i: int, j: int)
    requires 0 <= i < j < |s|
    ensures var r := Sort(ByDeadline, s);
      (r[i].deadline.None? ==> r[j].deadline.None?)
      && (r[i].deadline.Some? && r[j].deadline.Some? ==> r[i].deadline.value <= r[j].deadline.value)
    ensures Seqs.Filter(Sort(ByDeadline, s), UndatedFn()) == Seqs.Filter(s, UndatedFn())
  {
    SortedPair(ByDeadline, s, i, j);
    UndatedStable(s);
  }

  lemma UndatedStable(s: seq<Task>)
    ensures Seqs.Filter(Sort(ByDeadline, s), UndatedFn()) == Seqs.Filter(s, UndatedFn())
  {
    SortStable(ByDeadline, s, (1, 0));
    var undated := Sorting.SameKey(KeyFn(ByDeadline), (1, 0));
    Seqs.FilterSame(Sort(ByDeadline, s), UndatedFn(), undated);
    Seqs.FilterSame(s, UndatedFn(), undated);
  }

  /** Sorting by status: "today" before "upcoming" before the rest. */
  lemma SortByStatus(s: seq<Task>, i: int, j: int)
    requires 0 <= i < j < |s|
    ensures StatusRank(Sort(ByStatus, s)[i].statusLabel) <= StatusRank(Sort(ByStatus, s)[j].statusLabel)
  {
    SortedPair(ByStatus, s, i, j);
  }

  /** The server never sends `status_label`, so on the tasks it serves the
      status sort is the identity. */
  lemma SortByStatusUnlabelled(s: seq<Task>)
    requires forall i :: 0 <= i < |s| ==> s[i].statusLabel.None?
    ensures Sort(ByStatus, s) == s
  {
    Sorting.SortTied(CompareFn(ByStatus), s);
  }

  // The lists and counters of the page

  /** What the task list shows: the two sorted lists, filtered, and the four
      counters, which ignore the filters. */
  datatype View = View(
    pending: seq<Task>,
    completed: seq<Task>,
    total: int,
    totalPending: int,
    totalCompleted: int,
    totalOverdue: int)


  /** `t.status === 'pending' && t.days_until_deadline < 0`: a missing day
      count compares false. */
  predicate IsOverdue(t: Task)
  {
    TaskJson.IsPending(t) && t.daysUntilDeadline.Some? && t.daysUntilDeadline.value < 0
  }

  function Overdue(tasks: seq<Task>): (n: nat)
    ensures n <= |tasks|
  {
    Seqs.Count(tasks, t => IsOverdue(t))
  }

  function ViewOf(tasks: seq<Task>, search: string, priority: string, category: string, order: SortKey): (v: View)
    ensures v.total == |tasks|
    ensures v.totalPending == Seqs.Count(tasks, TaskJson.IsPendingFn())
    ensures v.totalCompleted == Seqs.Count(tasks, TaskJson.IsCompletedFn())
    ensures v.totalPending + v.totalCompleted <= v.total
    ensures v.totalOverdue <= v.totalPending
    ensures forall i :: 0 <= i < |v.pending| ==>
      TaskJson.IsPending(v.pending[i]) && Matches(v.pending[i], search, priority, category)
    ensures forall i :: 0 <= i < |v.completed| ==>
      TaskJson.IsCompleted(v.completed[i]) && Matches(v.completed[i], search, priority, category)
  {
    var sorted := Sort(order, Filtered(tasks, search, priority, category));
    var pending := Seqs.Filter(sorted, TaskJson.IsPendingFn());
    var completed := Seqs.Filter(sorted, TaskJson.IsCompletedFn());
    Seqs.CountDisjoint(tasks, TaskJson.IsPendingFn(), TaskJson.IsCompletedFn());
    Seqs.CountMonotone(tasks, t => IsOverdue(t), TaskJson.IsPendingFn());
    forall i | 0 <= i < |pending| ensures Matches(pending[i], search, priority, category) {
      MatchesInSorted(order, tasks, search, priority, category, pending[i]);
    }
    forall i | 0 <= i < |completed| ensures Matches(completed[i], search, priority, category) {
      MatchesInSorted(order, tasks, search, priority, category, completed[i]);
    }
    View(pending, completed, |tasks|, Seqs.Count(tasks, TaskJson.IsPendingFn()),
      Seqs.Count(tasks, TaskJson.IsCompletedFn()), Overdue(tasks))
  }

  lemma MatchesInSorted(order: SortKey, tasks: seq<Task>, search: string, priority: string, category: string, t: Task)
    requires t in Sort(order, Filtered(tasks, search, priority, category))
    ensures Matches(t, search, priority, category)
  {
    var f := Filtered(tasks, search, priority, category);
    assert t in multiset(f);
  }

  /** The two lists hold, between them, every task that passes the filters
      and has one of the two statuses, each as often as in the store. */
  lemma ViewListsArePermutations(tasks: seq<Task>, search: string, priority: string, category: string, order: SortKey)
    ensures var v := ViewOf(tasks, search, priority, category, order);
      var f := Filtered(tasks, search, priority, category);
      multiset(v.pending) == multiset(Seqs.Filter(f, TaskJson.IsPendingFn()))
      && multiset(v.completed) == multiset(Seqs.Filter(f, TaskJson.IsCompletedFn()))
  {
    var f := Filtered(tasks, search, priority, category);
    Seqs.FilterPermutation(Sort(order, f), f, TaskJson.IsPendingFn());
    Seqs.FilterPermutation(Sort(order, f), f, TaskJson.IsCompletedFn());
  }

  /** The two lists are in sorted order too. */
  lemma ViewListsSorted(tasks: seq<Task>, search: string, priority: string, category: string, order: SortKey)
    requires AllRanked(order, tasks)
    ensures var v := ViewOf(tasks, search, priority, category, order);
      Sorting.SortedBy(KeyFn(order), v.pending) && Sorting.SortedBy(KeyFn(order), v.completed)
  {
    var f := Filtered(tasks, search, priority, category);
    assert AllRanked(order, f);
    var sorted := Sort(order, f);
    SortSorted(order, f);
    Sorting.FilterKeepsSorted(KeyFn(order), sorted, TaskJson.IsPendingFn());
    Sorting.FilterKeepsSorted(KeyFn(order), sorted, TaskJson.IsCompletedFn());
  }

  /** The server's serializer sends no `days_until_deadline`, so the overdue
      counter is 0 on every list it serves. */
  lemma OverdueOfServedIsZero(rows: seq<Models.Task>)
    ensures Overdue(Serializers.SerializeAll(rows)) == 0
  {
    var s := Serializers.SerializeAll(rows);
    Seqs.FilterNone(s, t => IsOverdue(t));
  }

  // The deadline badge

  /** `Math.ceil(x / d)` for a positive `d`. */
  function CeilDiv(x: int, d: int): (q: int)
    requires d > 0
    ensures (q - 1) * d < x <= q * d
  {
    -((-x) / d)
  }

  /** `getStatusColor` at instant `now`. */
  function StatusColor(t: Task, now: int): string
  {
    if TaskJson.IsCompleted(t) then "completed"
    else if t.deadline.None? then "upcoming"
    else
      var daysLeft := CeilDiv(t.deadline.value - now, Models.MsPerDay);
      if daysLeft < 0 then "overdue"
      else if daysLeft == 0 then "today"
      else "upcoming"
  }

  /** The badge by cases. It counts 24-hour periods from `now`, not calendar
      days: a deadline is "today" when it fell within the last 24 hours or is
      exactly now, and "overdue" only once it is a full day past. */
  lemma StatusColorCases(t: Task, now: int)
    ensures StatusColor(t, now) == "completed" <==> TaskJson.IsCompleted(t)
    ensures StatusColor(t, now) == "overdue"
        <==> !TaskJson.IsCompleted(t) && t.deadline.Some? && t.deadline.value <= now - Models.MsPerDay
    ensures StatusColor(t, now) == "today"
        <==> !TaskJson.IsCompleted(t) && t.deadline.Some? && now - Models.MsPerDay < t.deadline.value <= now
    ensures StatusColor(t, now) == "upcoming"
        <==> !TaskJson.IsCompleted(t) && (t.deadline.None? || t.deadline.value > now)
  {
    if !TaskJson.IsCompleted(t) && t.deadline.Some? {
      var x := t.deadline.value - now;
      var q := CeilDiv(x, Models.MsPerDay);
      assert q < 0 <==> x <= -Models.MsPerDay;
      assert q == 0 <==> -Models.MsPerDay < x <= 0;
    }
  }

  /** A task the badge calls overdue is overdue by the server's calendar-day
      rule as well. */
  lemma OverdueBadgeAgreesWithServer(row: Models.Task, now: int)
    requires StatusColor(Serializers.Serialize(row), now) == "overdue"
    ensures Models.StatusLabelOf(row, now) == Models.LabelOverdue
  {
    StatusColorCases(Serializers.Serialize(row), now);
    Models.StatusLabelCases(row, now);
    var d := row.deadline.value;
    assert Models.DateOf(d) <= Models.DateOf(now - Models.MsPerDay);
    Models.DateOfShift(now, -1);
    assert now - Models.MsPerDay == now + (-1) * Models.MsPerDay;
  }
}
