/** The server's `Task` and `TaskTemplate` rows (backend/tasks_app/models.py):
    field defaults, the default ordering, and the two derived properties
    `days_until_deadline` and `status_label`.

    Instants are integers counting milliseconds since the epoch (UTC); a
    calendar date is a day number, the instant divided by the length of a
    day. */
module Models {
  import opened Wrappers

  const MsPerDay: int := 86400000

  /** `datetime.date()` of a UTC instant, as a day number. */
  function DateOf(t: int): int
  {
    t / MsPerDay
  }

  datatype Status = Pending | Completed
  datatype Priority = Low | Medium | High
  datatype Recurrence = NoRepeat | Daily | Weekly | Monthly
  datatype StatusLabel = LabelCompleted | LabelUpcoming | LabelOverdue | LabelToday

  const DefaultCategory: string := "Other"

  datatype Task = Task(
    id: int,
    user: int,
    title: string,
    description: string,
    status: Status,
    priority: Priority,
    deadline: Option<int>,
    category: string,
    recurrence: Recurrence,
    isRecurring: bool,
    parentTask: Option<int>,
    order: int,
    createdAt: int,
    updatedAt: int)

  datatype Template = Template(
    id: int,
    user: int,
    name: string,
    description: string,
    priority: Priority,
    recurrence: Recurrence)

  /** A row inserted with only its owner, title, description, priority,
      recurrence and deadline given: every other field takes its declared
      default, and both timestamps are the insertion instant. */
  function NewTask(id: int, user: int, title: string, description: string, priority: Priority,
                   recurrence: Recurrence, deadline: Option<int>, now: int): (t: Task)
    ensures t.status == Pending && t.category == DefaultCategory
    ensures !t.isRecurring && t.parentTask == None && t.order == 0
    ensures t.createdAt == now && t.updatedAt == now
    ensures t.id == id && t.user == user && t.title == title && t.description == description
    ensures t.priority == priority && t.recurrence == recurrence && t.deadline == deadline
  {
    Task(id, user, title, description, Pending, priority, deadline, DefaultCategory,
         recurrence, false, None, 0, now, now)
  }

  /** `days_until_deadline`: whole calendar days from today's date to the
      deadline's date, `None` without a deadline. */
  function DaysUntilDeadline(t: Task, now: int): Option<int>
  {
    match t.deadline
    case None => None
    case Some(d) => Some(DateOf(d) - DateOf(now))
  }

  lemma DaysUntilDeadlineNone(t: Task, now: int)
    ensures DaysUntilDeadline(t, now).None? <==> t.deadline.None?
  {
  }

  /** The day count is the instant difference rounded to days: it is off
      from `(deadline - now) / day` by less than one day either way. */
  lemma DaysUntilDeadlineBounds(t: Task, now: int)
    requires t.deadline.Some?
    ensures var k := DaysUntilDeadline(t, now).value;
      (k - 1) * MsPerDay < t.deadline.value - now < (k + 1) * MsPerDay
  {
    var d := t.deadline.value;
    var k := DateOf(d) - DateOf(now);
    assert DateOf(d) * MsPerDay <= d < DateOf(d) * MsPerDay + MsPerDay;
    assert DateOf(now) * MsPerDay <= now < DateOf(now) * MsPerDay + MsPerDay;
    assert k * MsPerDay == DateOf(d) * MsPerDay - DateOf(now) * MsPerDay;
  }

  /** Shifting a deadline by whole days shifts the day count by as many. */
  lemma DateOfShift(d: int, days: int)
    ensures DateOf(d + days * MsPerDay) == DateOf(d) + days
  {
    assert d + days * MsPerDay == (DateOf(d) + days) * MsPerDay + d % MsPerDay;
  }

  /** `status_label` */
  function StatusLabelOf(t: Task, now: int): StatusLabel
  {
    if t.status == Completed then LabelCompleted
    else match DaysUntilDeadline(t, now)
      case None => LabelUpcoming
      case Some(days) =>
        if days < 0 then LabelOverdue
        else if days == 0 then LabelToday
        else LabelUpcoming
  }

  /** The label, case by case, in terms of the task's own fields: each of
      the four labels holds exactly when its condition does. */
  lemma StatusLabelCases(t: Task, now: int)
    ensures StatusLabelOf(t, now) == LabelCompleted <==> t.status == Completed
    ensures StatusLabelOf(t, now) == LabelOverdue
        <==> t.status == Pending && t.deadline.Some? && DateOf(t.deadline.value) < DateOf(now)
    ensures StatusLabelOf(t, now) == LabelToday
        <==> t.status == Pending && t.deadline.Some? && DateOf(t.deadline.value) == DateOf(now)
    ensures StatusLabelOf(t, now) == LabelUpcoming
        <==> t.status == Pending && (t.deadline.None? || DateOf(t.deadline.value) > DateOf(now))
  {
  }

  /** A deadline still ahead of `now` is never overdue. */
  lemma FutureDeadlineNotOverdue(t: Task, now: int)
    requires t.deadline.Some? && t.deadline.value >= now
    ensures StatusLabelOf(t, now) != LabelOverdue
  {
    assert DateOf(t.deadline.value) >= DateOf(now);
  }

  /** `Meta.ordering = ['order', '-created_at']`: `a` may be listed before
      `b`. */
  predicate ListedBefore(a: Task, b: Task)
  {
    a.order < b.order || (a.order == b.order && a.createdAt >= b.createdAt)
  }

  /** A listing that follows the default ordering. */
  predicate InDefaultOrder(s: seq<Task>)
  {
    forall i, j :: 0 <= i < j < |s| ==> ListedBefore(s[i], s[j])
  }
}
