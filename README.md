# Duna task tracker: a Dafny model of its task rules

Duna is a study task tracker. It has a Django REST backend and a React web
client. This project models its deterministic core:

- the server's task rows: field defaults, default ordering,
  `days_until_deadline` and `status_label`;
- the task endpoints, over a table from id to row: owner scoping, the
  pending and completed lists, mark complete / mark pending,
  `update_order`, recurring instances and tasks from templates;
- the serializers: the field set a task is sent with, task creation and
  the registration checks;
- the client task store of the `useTasks` hook, with each server reply
  passed in as a parameter;
- the task list view-model of the old dashboard page: search and filters,
  the comparator sort, the pending/completed split, the counters, the
  deadline badge and the Pomodoro countdown;
- the aggregations of the statistics, analytics, time-tracking and
  subtask panels;
- the settings page, the session keys in local storage, and the axios
  interceptors with their single refresh-and-retry.

Instants are integers counting milliseconds since the epoch (UTC). A
calendar date is a day number, the instant divided by 86 400 000. The
current instant, the current day and every server reply are parameters.
The browser's local storage is a class holding a map from key to entry.
The server's table is a map from id to row.

Stateful code becomes classes whose methods are proved against
specification functions:

- the store;
- the task table;
- the Pomodoro timer;
- the form-owning components;
- the session;
- the API client.

Pure code becomes functions and lemmas. `Array.prototype.sort` is modelled
as a stable insertion sort (module `Sorting`). Its theorems relate it to a
key that the comparator agrees with.

Three behaviours of the code are easy to misread:

- The status sort of the old dashboard ranks labels by `statusOrder[label] || 3`.
  `overdue` maps to 0, which is falsy, so it ranks with `completed` and
  with a missing label, behind `today` and `upcoming`.
- The deadline badge (`getStatusColor`) counts 24-hour periods from now
  with `Math.ceil`, not calendar days. A deadline is "today" when
  `now - 1 day < deadline <= now`. A deadline later the same day is
  "upcoming", and there is no "tomorrow" class.
- The overdue counter reads `days_until_deadline`. The server's
  serializer never sends that field, so on served data the counter is 0
  (`TaskListView.OverdueOfServedIsZero`).

The server's listings are sorted by `Meta.ordering` (`order`, then newest
first). After `update_order` with all of a user's pending ids, the
`pending` listing returns exactly that order (`Views.ReorderedListing`).
Every text a serializer accepts is stripped of surrounding white space
first, as Python's `str.strip()` does (module `Fields`).

## Model

| member | source | states |
|---|---|---|
| Models.NewTask | backend/tasks_app/models.py:33-45 | a row created with only owner, title, description, priority, recurrence and deadline is pending, in category 'Other', non-recurring, without parent, with order 0 and both timestamps at the insertion instant |
| Models.DaysUntilDeadlineNone | backend/tasks_app/models.py:53-56 | `days_until_deadline` is None exactly when the deadline is absent |
| Models.DaysUntilDeadlineBounds | backend/tasks_app/models.py:57-59 | the day count is the calendar-date difference: it differs from the instant difference by less than one day either way |
| Models.StatusLabelCases | backend/tasks_app/models.py:61-71 | each of the four labels holds exactly when its condition holds: completed for completed tasks whatever the deadline; overdue, today or upcoming for pending tasks by the deadline's date against today's; upcoming without a deadline |
| Models.FutureDeadlineNotOverdue | backend/tasks_app/models.py:61-71 | a deadline not before now is never labelled overdue |
| Fields.Strip | backend/tasks_app/models.py:34-35 | the stripped text has white space at neither end, and is empty exactly when the text is all white space |
| Fields.StripIdempotent | backend/tasks_app/models.py:34-35 | stripping a stripped text changes nothing |
| Fields.StripPaddedAny | backend/tasks_app/models.py:34-35 | white space added at either end does not change the stripped text |
| Serializers.StatusNames | backend/tasks_app/models.py:36 | the serialized status is "completed" exactly for completed rows and "pending" exactly for pending ones |
| Serializers.Serialize | backend/tasks_app/serializers.py:31-38 | a serialized task carries the row's id, owner, title, description, status, the priority and recurrence by their choice keys, deadline, category and timestamps, and never days_until_deadline or status_label |
| Serializers.ChoiceNames | backend/tasks_app/models.py:10-21 | priorities and recurrences are sent as their choice keys, and different values get different keys |
| Serializers.SerializeAll | backend/tasks_app/views.py:65-66 | a serialized list has one entry per row, each the row serialized, in the same order |
| Serializers.TitleErrorCases | backend/tasks_app/models.py:34 | the title is refused as required when missing, as blank when all white space, as too long when more than 200 characters remain after stripping, and accepted otherwise |
| Serializers.CreateTask | backend/tasks_app/serializers.py:31-42 | creation fails exactly when the title or the category fails its field, with the errors keyed by those fields; otherwise the owner is the requesting user, title and description are stored stripped, the deadline as given, and every other writable field is the input's value or the declared default |
| Serializers.StoredTitleClean | backend/tasks_app/models.py:34 | a stored title is never blank, has at most 200 characters and no white space at either end |
| Serializers.CreatePaddedTitle | backend/tasks_app/models.py:34 | white space around the sent title does not change the created row |
| Serializers.CreateRoundTrip | backend/tasks_app/serializers.py:31-42 | sending a created row's own title and description again creates the same row |
| Serializers.CreateIgnoresReadOnly | backend/tasks_app/serializers.py:38 | the user and timestamp fields of the request body have no effect on the created row |
| Serializers.CreatedTaskAsSeen | backend/tasks_app/serializers.py:37-42 | an accepted task reaches the client owned by the requester, with its stripped title, the requested or the default status, and without days_until_deadline |
| Serializers.Validate | backend/tasks_app/serializers.py:166-169 | differing passwords give an error keyed "password"; matching ones return the cleaned data unchanged |
| Serializers.IsValidCharacterized | backend/tasks_app/serializers.py:158-169 | registration data is accepted exactly when, after stripping, the username is non-blank, at most 150 characters, made of username characters and not taken, the email is blank or valid, and the passwords are equal and at least 8 characters long; the stripped data is then returned; passing field checks with differing passwords give exactly the "password" error |
| Serializers.CreateUser | backend/tasks_app/serializers.py:171-174 | the user is created from username, email and password, with password2 dropped |
| Serializers.RegisterStatus | backend/tasks_app/views.py:42-50 | registration answers 201 exactly when the data passes every check, including the username and email checks, and 400 otherwise |
| Serializers.RegisterTwice | backend/tasks_app/views.py:42-50 | once a registration went through, the same username, with or without white space around it, is refused with 400 |
| Views.OwnedBy | backend/tasks_app/views.py:57-58 | the queryset holds exactly the requesting user's rows, unchanged |
| Views.WithStatus | backend/tasks_app/views.py:65 | the filtered querysets hold exactly the user's rows with that status, unchanged |
| Views.PendingCompletedSplit | backend/tasks_app/views.py:63-73 | the pending and completed querysets are disjoint and together cover all of the user's rows |
| Views.Ordered | backend/tasks_app/models.py:47-48 | a listing holds each of the given rows exactly once and is in `Meta.ordering`: `order` ascending, and newer rows first among equal `order` |
| Views.ListIds | backend/tasks_app/views.py:57-58 | the `list` response lists each of the user's rows exactly once, no other row, in `Meta.ordering` |
| Views.StatusIds | backend/tasks_app/views.py:63-73 | the `pending` and `completed` responses list each of the user's rows with that status exactly once, no other row, in `Meta.ordering` |
| Views.ReorderedListing | backend/tasks_app/views.py:91-98 | after update_order with all of the user's ids of one status, each once, in any order, that status's listing comes back in exactly that order |
| Views.StatusChanged | backend/tasks_app/views.py:76-89 | marking changes only that row's status, and its updated_at through save(); every other row is unchanged |
| Views.StatusChangedIdempotent | backend/tasks_app/views.py:75-89 | marking a row twice with the same status at the same instant is marking it once |
| Views.StatusChangedKeepsOthers | backend/tasks_app/views.py:57-58 | marking a row leaves every other user's rows exactly as they were |
| Views.ReindexedAt | backend/tasks_app/views.py:91-98 | after update_order an owned, listed row has `order` equal to the last index of its id in the list; other rows and other fields are unchanged, and no row is added or removed |
| Views.ReindexedUsers | backend/tasks_app/views.py:96-97 | update_order changes no row's owner |
| Views.ReindexedEmpty | backend/tasks_app/views.py:95-98 | an empty order list changes nothing |
| Views.RecurringInstance | backend/tasks_app/views.py:121-132 | the new instance copies owner, title, description, priority, category and recurrence, is pending and recurring, has the original as parent, and has a deadline exactly when the original has one |
| Views.RecurringDeadlineDays | backend/tasks_app/views.py:113-119 | measured in calendar days, the new instance is due 1, 7 or 30 days after the original for daily, weekly or monthly recurrence |
| Views.FromTemplate | backend/tasks_app/views.py:371-378 | the request's title when given, else the template's name; description, priority and recurrence from the template; the requesting user as owner; pending, no deadline, category 'Other', not recurring, no parent, order 0 and both timestamps at the instant of creation |
| Views.TaskTable.ListOf | backend/tasks_app/views.py:53-58 | the `list` action returns the rows of ListIds serialized, one entry per id, in that order |
| Views.TaskTable.PendingOf | backend/tasks_app/views.py:63-67 | the `pending` action returns the rows of StatusIds serialized, one entry per id, in that order |
| Views.TaskTable.CompletedOf | backend/tasks_app/views.py:69-73 | the `completed` action returns the rows of StatusIds serialized, one entry per id, in that order |
| Views.TaskTable.MarkStatus | backend/tasks_app/views.py:75-89 | an owned row gets the status change and is returned serialized; a missing or foreign row gives 404 and changes nothing; rows stay stored under their own ids |
| Views.TaskTable.MarkComplete | backend/tasks_app/views.py:75-81 | as MarkStatus with status completed |
| Views.TaskTable.MarkPending | backend/tasks_app/views.py:83-89 | as MarkStatus with status pending |
| Views.TaskTable.UpdateOrder | backend/tasks_app/views.py:91-100 | the loop leaves the table as the reindexing function says, and the reply is the success message |
| Views.TaskTable.CreateRecurring | backend/tasks_app/views.py:102-136 | a missing or foreign task gives 404; a non-recurring one gives 400 and creates nothing; otherwise exactly one new row, the next instance under a fresh id, is added and returned |
| Views.TaskTable.Create | backend/tasks_app/views.py:60-61 | a body the serializer refuses gives 400 with its field errors and nothing is stored; otherwise the created row, owned by the requesting user, is stored under a fresh id and returned |
| Views.TaskTable.CreateFromTemplate | backend/tasks_app/views.py:368-380 | a foreign or missing template gives 404 and changes nothing; otherwise exactly one new row built from the template is stored under a fresh id and returned |
| TaskStore.ReplaceById | web/src/hooks/useTasks.js:36 | the list keeps its length, every entry with the id becomes the server's task and every other entry stays in place |
| TaskStore.ReplaceByIdProperties | web/src/hooks/useTasks.js:36 | replacing with the server's copy of the task keeps the list of ids, and a second replacement changes nothing |
| TaskStore.ReplaceByIdAbsent | web/src/hooks/useTasks.js:57 | an id not in the list leaves it as it is |
| TaskStore.RemoveById | web/src/hooks/useTasks.js:47 | deletion leaves an order-preserving subsequence without the id, in which every other task occurs as often as before |
| TaskStore.FindById | web/src/hooks/useTasks.js:113 | `find` returns a task of the list with that id, and nothing exactly when no task has the id |
| TaskStore.FindByIdUnique | web/src/hooks/useTasks.js:113 | in a list without repeated ids every task is found by its own id |
| TaskStore.LookUp | web/src/hooks/useTasks.js:112-114 | the looked-up list is no longer than the id list and holds only tasks of the pending list |
| TaskStore.LookUpIds | web/src/hooks/useTasks.js:112-114 | the looked-up tasks carry exactly the listed ids that name a pending task, in the order listed |
| TaskStore.Reordered | web/src/hooks/useTasks.js:108-115 | the reordered list holds only pending and completed tasks |
| TaskStore.ReorderedOrder | web/src/hooks/useTasks.js:108-115 | the pending part of the new list has the ids of orderArray that name pending tasks, in that order; the completed part is the old completed tasks in their relative order |
| TaskStore.ReorderedCount | web/src/hooks/useTasks.js:108-115 | with unique ids, a pending task occurs as often as orderArray lists its id (unlisted ones are dropped, one listed twice is duplicated), a completed task as before, any other task never |
| TaskStore.LookUpPermutes | web/src/hooks/useTasks.js:112-114 | looking up every id of a list without repeated ids, each once, gives a permutation of the list |
| TaskStore.ReorderedPermutes | web/src/hooks/useTasks.js:108-115 | with unique ids, only pending and completed tasks, and every pending id listed once, reordering is a permutation |
| TaskStore.ToggledStatus | web/src/hooks/useTasks.js:153-155 | the request sends "pending" exactly when the third argument is "completed", and "completed" otherwise, a missing argument included |
| TaskStore.Store.FetchTasks | web/src/hooks/useTasks.js:9-20 | success installs the server's list and clears the error; failure keeps the list and records the rejection's message; loading ends false either way |
| TaskStore.Store.Mount | web/src/hooks/useTasks.js:293-297 | the list is fetched exactly when a non-empty access token is stored; otherwise nothing changes |
| TaskStore.Store.CreateTask | web/src/hooks/useTasks.js:22-31 | success puts the server's task in front of the unchanged old list; failure keeps the list, records the detail or 'Failed to create task' and passes the rejection on |
| TaskStore.Store.CreateRecurringTask | web/src/hooks/useTasks.js:128-137 | as CreateTask, with fallback 'Failed to create recurring task' |
| TaskStore.Store.UpdateTask | web/src/hooks/useTasks.js:33-42 | success replaces the entries with the id by the server's task; failure keeps the list, records the detail or 'Failed to update task' and passes the rejection on |
| TaskStore.Store.MarkComplete | web/src/hooks/useTasks.js:54-63 | as UpdateTask, with fallback 'Failed to mark complete' |
| TaskStore.Store.MarkPending | web/src/hooks/useTasks.js:65-74 | as UpdateTask, with fallback 'Failed to mark pending' |
| TaskStore.Store.DeleteTask | web/src/hooks/useTasks.js:44-52 | success removes exactly the entries with the id; failure keeps the list, records the detail or 'Failed to delete task' and passes the rejection on |
| TaskStore.Store.UpdateTaskOrder | web/src/hooks/useTasks.js:105-126 | the reordered list is installed whatever the server answers and is not restored on failure; success returns true, failure records the detail or 'Failed to update order' and passes the rejection on |
| TaskStore.Store.ToggleSubtask | web/src/hooks/useTasks.js:151-161 | the body sent is the toggled status; the list is untouched; failure records the detail or 'Failed to update subtask' |
| TaskStore.Store.Relay | web/src/hooks/useTasks.js:76-103 | the pass-through operations (notes, subtasks, time logs, comments, goals, theme, presets, statistics) return the reply, never touch the list and record the detail or their fallback on failure |
| Api.ErrorText | web/src/hooks/useTasks.js:28 | the error text is the server's detail when it is present and non-empty, and the operation's fallback otherwise |
| Pomodoro.Settle | web/src/pages/DashboardOld.jsx:43-45 | the effect stops a running clock exactly at 0:00 and changes nothing else |
| Pomodoro.TickedRunning | web/src/pages/DashboardOld.jsx:28-47 | one tick of a running clock takes exactly one second off, keeps the seconds in 0..59, and leaves it running exactly when time is left |
| Pomodoro.TickedPaused | web/src/pages/DashboardOld.jsx:30 | a paused clock does not move |
| Pomodoro.TicksCountDown | web/src/pages/DashboardOld.jsx:28-47 | while time is left, n ticks take exactly n seconds off a running clock |
| Pomodoro.RunsOut | web/src/pages/DashboardOld.jsx:28-47 | once all its seconds have ticked away a running clock shows 0:00 paused, and stays there |
| Pomodoro.Toggled | web/src/pages/DashboardOld.jsx:67 | Start/Pause keeps the time and flips the running flag, except that a clock at 0:00 does not start |
| Pomodoro.ToggleTwice | web/src/pages/DashboardOld.jsx:67 | pressing Start/Pause twice on a clock with time left changes nothing |
| Pomodoro.Timer.constructor | web/src/pages/DashboardOld.jsx:24-26 | the timer starts at 25:00, paused |
| Pomodoro.Timer.SettleAfterChange | web/src/pages/DashboardOld.jsx:43-45 | the fields become the settled clock |
| Pomodoro.Timer.Callback | web/src/pages/DashboardOld.jsx:31-42 | the fields become the interval step of the old clock |
| Pomodoro.Timer.Tick | web/src/pages/DashboardOld.jsx:28-47 | the fields become the ticked clock, about which TickedRunning and TickedPaused hold |
| Pomodoro.Timer.Toggle | web/src/pages/DashboardOld.jsx:67 | the fields become the toggled clock |
| Pomodoro.Timer.Reset | web/src/pages/DashboardOld.jsx:77-81 | Reset gives 25:00, paused |
| Text.Lower | web/src/pages/DashboardOld.jsx:170-171 | lower-casing keeps the length and maps each character, turning exactly A-Z into a-z |
| Text.ContainsAt | web/src/pages/DashboardOld.jsx:170-171 | `includes` holds exactly when the query occurs at some position |
| Text.ParseIntOfDecimal | web/src/components/TimeTracker.jsx:13-14 | parseInt of a decimal numeral gives back its value |
| TaskListView.Filtered | web/src/pages/DashboardOld.jsx:169-175 | the filtered list is an order-preserving subsequence holding exactly the tasks whose title or description contains the search case-insensitively and whose priority and category match or the filter is 'all' |
| TaskListView.FilteredKeepsAll | web/src/pages/DashboardOld.jsx:169-175 | an empty search with both filters at 'all' keeps every task |
| TaskListView.FilteredIdempotent | web/src/pages/DashboardOld.jsx:169-175 | filtering twice is filtering once |
| TaskListView.SortKeyOf | web/src/pages/DashboardOld.jsx:178-190 | any sortBy value other than deadline, priority and status sorts by creation time |
| TaskListView.StatusRank | web/src/pages/DashboardOld.jsx:186-187 | the status rank is 1 exactly for "today", 2 exactly for "upcoming", and 3 for everything else, overdue and a missing label included |
| TaskListView.Sort | web/src/pages/DashboardOld.jsx:177-191 | whatever the key, sorting neither adds nor loses a task |
| TaskListView.CompareIsKeyOrder | web/src/pages/DashboardOld.jsx:177-191 | for tasks with known priorities each comparator is negative exactly when the first task's key is below the second's |
| TaskListView.SortSorted | web/src/pages/DashboardOld.jsx:177-191 | the sorted list has no inversion of the key |
| TaskListView.SortStable | web/src/pages/DashboardOld.jsx:177-191 | tasks with equal keys keep their input order |
| TaskListView.SortByPriority | web/src/pages/DashboardOld.jsx:182-184 | sorting by priority puts high before medium before low |
| TaskListView.SortByPriorityStable | web/src/pages/DashboardOld.jsx:182-184 | tasks of equal priority keep their input order |
| TaskListView.SortByCreated | web/src/pages/DashboardOld.jsx:188-189 | the default sort puts newer tasks first |
| TaskListView.SortByDeadline | web/src/pages/DashboardOld.jsx:178-181 | dated tasks come first in ascending deadline order, then every undated task, in input order |
| TaskListView.SortByStatus | web/src/pages/DashboardOld.jsx:185-187 | sorting by status never puts a higher status rank before a lower one |
| TaskListView.SortByStatusUnlabelled | web/src/pages/DashboardOld.jsx:185-187 | on tasks without status_label, which is all the server sends, the status sort changes nothing |
| TaskListView.Overdue | web/src/pages/DashboardOld.jsx:199 | the overdue counter never exceeds the number of tasks |
| TaskListView.ViewOf | web/src/pages/DashboardOld.jsx:193-199 | the counters are taken over the unfiltered list (total, pending and completed counts, overdue at most pending), and both lists hold only filtered tasks of their status |
| TaskListView.MatchesInSorted | web/src/pages/DashboardOld.jsx:177 | every task in the sorted list passes the filters |
| TaskListView.ViewListsArePermutations | web/src/pages/DashboardOld.jsx:193-194 | the two lists hold exactly the filtered tasks of their status, each as often as in the store |
| TaskListView.ViewListsSorted | web/src/pages/DashboardOld.jsx:193-194 | both lists are in the order of the chosen key |
| TaskListView.OverdueOfServedIsZero | web/src/pages/DashboardOld.jsx:199 | on tasks as the server serializes them the overdue counter is 0 |
| TaskListView.CeilDiv | web/src/pages/DashboardOld.jsx:204 | `Math.ceil(x / d)` is the least integer q with x <= q * d |
| TaskListView.StatusColorCases | web/src/pages/DashboardOld.jsx:201-208 | the badge is completed exactly for completed tasks, upcoming without a deadline or with a future one, today when the deadline lies in the last 24 hours, and overdue once it is a full day past |
| TaskListView.OverdueBadgeAgreesWithServer | web/src/pages/DashboardOld.jsx:201-208 | a task the badge calls overdue is also overdue by the server's calendar-day status_label |
| Stats.SummaryOf | web/src/pages/Stats.jsx:11-17 | the summary is the length, the status counts and the priority counts of the list |
| Stats.StatusCountsBounded | web/src/pages/Stats.jsx:11-13 | completed plus pending never exceeds the total |
| Stats.PriorityCountsBounded | web/src/pages/Stats.jsx:15-17 | the three priority counts sum to at most the total, and to exactly the total when every priority is one of the three |
| Stats.CompletedCount | web/src/pages/Stats.jsx:25-28 | a day's count never exceeds the number of completed tasks |
| Stats.LastDays | web/src/pages/Stats.jsx:20-33 | the loop builds n bars, oldest first, the last for today, each holding the completions of its day |
| Stats.LastSevenDays | web/src/pages/Stats.jsx:20-33 | seven bars for the days today-6 to today, each the completions of its day and at most the completed count |
| Stats.CompletionRate | web/src/pages/Stats.jsx:94 | the rate is 0 without tasks |
| Stats.CompletionRateNearest | web/src/pages/Stats.jsx:94 | the rate is the integer nearest to 100 * completed / total, halves rounded up |
| Stats.CompletionRateRange | web/src/pages/Stats.jsx:94 | the rate lies in 0..100, is 100 when every task is completed and 0 when none is |
| Stats.PageRate | web/src/pages/Stats.jsx:94 | the page's rate lies in 0..100 and is 0 for no tasks |
| Analytics.LastThirtyDays | web/src/pages/Analytics.jsx:27-40 | thirty bars for the days today-29 to today, each the completions of its day |
| Analytics.NoUpdateNeverCounted | web/src/pages/Analytics.jsx:32-35 | a task without updated_at is counted on no day |
| Analytics.CardsOf | web/src/pages/Analytics.jsx:43-45 | the cards show the total, the completed count, their rate in 0..100, and a "Pending" value of total minus completed, at least the pending count |
| Analytics.PendingCardIsPendingCount | web/src/pages/Analytics.jsx:205 | the "Pending" card equals the pending count exactly when every task is pending or completed |
| Analytics.Row | web/src/pages/Analytics.jsx:47-63 | a row counts the completed and the pending tasks of its priority, together at most the tasks of that priority |
| Analytics.PriorityTable | web/src/pages/Analytics.jsx:47-63 | the table has three rows, for high, medium and low priority |
| Analytics.PriorityTableBounded | web/src/pages/Analytics.jsx:44-63 | the rows' completed counts sum to at most the completed total, and their pending counts to at most the pending count |
| Dashboard.WithStatus | web/src/pages/Dashboard.jsx:41-42 | each list is an order-preserving subsequence holding exactly the tasks with its status |
| Dashboard.CountersOf | web/src/pages/Dashboard.jsx:64-72 | the summary shows the total and the lengths of the two lists, which sum to at most the total |
| Dashboard.ListsCoverAll | web/src/pages/Dashboard.jsx:41-42 | when every task is pending or completed the two lists together are a permutation of the tasks |
| Dashboard.ListAreaOf | web/src/pages/Dashboard.jsx:155-158 | the loading message shows exactly while loading, the empty message exactly when not loading and without tasks, the lists otherwise |
| Dashboard.Page.constructor | web/src/pages/Dashboard.jsx:10-17 | the form starts blank and hidden |
| Dashboard.Page.ToggleForm | web/src/pages/Dashboard.jsx:78 | the button flips the form's visibility and keeps its fields |
| Dashboard.Page.HandleSubmit | web/src/pages/Dashboard.jsx:24-39 | the form goes to the store; success puts the new task in front, resets the form to its defaults and hides it; failure leaves form and list as they were and records the store's error text; loading is untouched |
| TimeTracker.TotalsAppend | web/src/components/TimeTracker.jsx:27-28 | both totals are 0 for no logs, and a further log adds its duration and its estimate, a missing estimate as 0 |
| TimeTracker.TotalsNonNegative | web/src/components/TimeTracker.jsx:27-28 | without negative minutes the totals are never negative |
| TimeTracker.HeadingOf | web/src/components/TimeTracker.jsx:37 | the heading shows the time spent, and the estimate exactly when its total is non-zero |
| TimeTracker.PayloadOf | web/src/components/TimeTracker.jsx:12-16 | the payload is the parsed duration, null for an empty estimate and the parsed estimate otherwise, and the notes as typed |
| TimeTracker.PayloadOfDigits | web/src/components/TimeTracker.jsx:13-14 | typed decimal numbers reach the server as their values |
| TimeTracker.Panel.constructor | web/src/components/TimeTracker.jsx:4-7 | the form starts closed with empty inputs |
| TimeTracker.Panel.HandleAddLog | web/src/components/TimeTracker.jsx:9-25 | a log is sent exactly when the duration is non-empty and a callback exists, with the payload of the inputs; success clears the inputs and closes the form; otherwise nothing changes |
| SubtaskList.CompletedCount | web/src/components/SubtaskList.jsx:15-16 | the completed count is at most the total, and equal to it exactly when every subtask is completed |
| SubtaskList.Progress | web/src/components/SubtaskList.jsx:22-24 | the label and the bar appear exactly when there are subtasks, showing completed and total counts |
| SubtaskList.ToggleArguments | web/src/components/SubtaskList.jsx:45 | the toggle callback gets the task id and the subtask id, and no status |
| SubtaskList.ToggleWithoutStatus | web/src/components/SubtaskList.jsx:45 | wired to the store's toggleSubtask, a checkbox click always asks for "completed" |
| SubtaskList.Panel.constructor | web/src/components/SubtaskList.jsx:4-5 | the form starts closed with an empty title |
| SubtaskList.Panel.HandleAddSubtask | web/src/components/SubtaskList.jsx:7-13 | a title is sent exactly when it is not blank, untrimmed; success clears the input and closes the form; otherwise nothing changes |
| Settings.InitialPreferences | web/src/pages/Settings.jsx:11-19 | a stored preferences record is used as it is; with nothing stored the defaults are used |
| Settings.DefaultsKeys | web/src/pages/Settings.jsx:13-18 | the defaults have the four flags, notifications and sound on, focus mode and auto-save off, and toggling one keeps the key set |
| Settings.Toggled | web/src/pages/Settings.jsx:33-37 | toggling flips exactly the flag of the key, a missing one reading as off, and keeps every other flag |
| Settings.ToggleTwice | web/src/pages/Settings.jsx:33-37 | toggling the same flag twice restores the record when the flag was present |
| Settings.ToggleCommutes | web/src/pages/Settings.jsx:33-37 | toggles of different flags commute |
| Settings.StoredPreferencesReload | web/src/pages/Settings.jsx:11-19 | a record written under userPreferences is what the page reads on the next mount |
| Settings.GoalPayloadOf | web/src/pages/Settings.jsx:46-51 | the goal payload is the title as typed, target 10, current 0 and unit 'tasks' |
| Settings.Page.constructor | web/src/pages/Settings.jsx:8-31 | preferences are read from storage; goals are the fetched ones, or empty when the fetch fails |
| Settings.Page.HandlePreferenceChange | web/src/pages/Settings.jsx:33-40 | the preferences become the toggled record, which is written to storage under userPreferences; nothing else changes |
| Settings.Page.HandleAddGoal | web/src/pages/Settings.jsx:42-60 | a blank title creates nothing; otherwise the payload is sent and, on success, the input is cleared, the form hidden and the goals reloaded; a failed create or reload keeps the goals |
| Auth.SignedIn | web/src/hooks/useAuth.js:16-18 | login stores the access token, the refresh token and the user record, and keeps every other entry |
| Auth.SignedOut | web/src/hooks/useAuth.js:47-51 | logout removes exactly the three session keys and keeps every other entry |
| Auth.AuthenticatedMeans | web/src/hooks/useAuth.js:53-55 | authenticated exactly when an access token is stored and it is not empty |
| Auth.SessionLifecycle | web/src/hooks/useAuth.js:8-55 | after login the session is authenticated exactly when the access token is non-empty; after logout it never is |
| Auth.SignedOutAfterSignedIn | web/src/hooks/useAuth.js:47-51 | logout is idempotent, and logout after login leaves what logout alone would |
| Auth.Session.constructor | web/src/hooks/useAuth.js:5-6 | the session starts not loading and without error |
| Auth.Session.Login | web/src/hooks/useAuth.js:8-26 | success stores the session keys and clears the error; failure leaves storage unchanged, records the detail or 'Login failed' and passes the rejection on; loading ends false |
| Auth.Session.Register | web/src/hooks/useAuth.js:28-45 | registration never touches storage; failure records the detail or 'Registration failed'; loading ends false |
| Auth.Session.Logout | web/src/hooks/useAuth.js:47-51 | storage becomes the signed-out map, which is not authenticated |
| Auth.Session.IsAuthenticated | web/src/hooks/useAuth.js:53-55 | true exactly when an access token is stored and it is not empty |
| ApiClient.Authorized | web/src/api/client.js:13-19 | the bearer header is the stored token exactly when that token is truthy; otherwise the header is unchanged |
| ApiClient.PassThrough | web/src/api/client.js:26-42 | an error that is not a first 401 is rejected unchanged, with no refresh and nothing stored or marked |
| ApiClient.FirstUnauthorized | web/src/api/client.js:26-41 | a first 401 marks the request and refreshes once with the stored refresh token; success stores the new access token, sets the default header and reissues; failure removes both tokens, keeps the user record and every other entry, and rejects |
| ApiClient.AtMostOneRefresh | web/src/api/client.js:26-27 | a request that passes through the interceptor twice triggers at most one refresh |
| ApiClient.ReissueCarriesNewToken | web/src/api/client.js:33-35 | the reissued request carries the new access token when it is non-empty |
| ApiClient.Client.InterceptRequest | web/src/api/client.js:13-19 | the config's header becomes the authorized header; the retry mark is kept |
| ApiClient.Client.InterceptError | web/src/api/client.js:22-44 | storage, the retry mark, the default header, the refresh call and the outcome are exactly the interceptor step's |
| Sorting.SortSorted | web/src/pages/DashboardOld.jsx:177-191 | a sort whose comparator agrees with a key leaves no inversion of that key |
| Sorting.SortStable | web/src/pages/DashboardOld.jsx:177-191 | elements sharing a key keep their input order |

## Left out

- Rendering: JSX markup, styling, charts, dark mode, the login page and routing are not modelled; they hold no logic.
- Network transport, the Django ORM and DRF: each server reply is a parameter (success value or rejection), and the database is a map from id to row.
- Clocks and locale: "now" and "today" are integer parameters. `toISOString` dates, time zones and `toLocaleDateString` labels are not modelled; a bar's day is a day number.
- `Math.round` and `Math.ceil` are integer rounding. Floating-point error in the completion rate and in the badge division is not modelled.
- The percentage widths of the progress bars are floating-point display only and are not modelled.
- Concurrency is not modelled: overlapping store calls with stale `tasks` closures, `setInterval` scheduling (a Pomodoro tick is one step) and React re-render timing.
- The Settings page's goal effect depends on `getGoals`, which is a new function on every render, so it refetches repeatedly; the model fetches once, at mount.
- `JSON.stringify`/`JSON.parse` of local-storage entries is not modelled; entries are stored as structured values (text, user record, preferences record).
- Settings.InitialPreferences: a stored entry that is not a preferences record is read as the defaults; the source would parse whatever text is stored.
- The goal-field mismatch (the client sends `target_value`, the server's goal serializer has `target_count`) is a schema detail and is not modelled.
- Settings.Page does not model the error state of the store it uses, which the page never reads.
- ApiClient.Client.InterceptError: the `window.location` redirect to /login is the `toLogin` flag of the outcome. The reissued request's own reply is not modelled; only the decision to reissue is. That request's rejection escapes the `try` because it is returned without `await`.
- `Array.prototype.sort` is modelled as a stable insertion sort. For a comparator that is not consistent (the deadline comparator with two undated tasks, a priority outside the table) the browser's order may differ from the model's.
- TaskListView.Compare: a comparison involving a priority outside the table is `NaN` in the source, which `sort` treats as 0; the model returns 0.
- TaskListView.SortByPriority and TaskListView.SortByPriorityStable assume every priority is high, medium or low.
- Stats.LastSevenDays requires every completed task to carry `updated_at`, because the page dereferences it without `?.` and would throw otherwise.
- Auth.Session.Register: the request body sent to the server is not modelled; only storage, loading and error are.
- Text.Lower: only the ASCII letters A-Z are lower-cased; the full Unicode case mapping of `toLowerCase` is not modelled.
- The notes, labels, subtasks, dependencies, time logs, sharing, comments, lists, goals, presets, themes, reminders, activity, study-session, statistics and link view sets only scope by owner and save; they are not modelled.
- The pass-through store operations are modelled once, as TaskStore.Store.Relay, rather than one method per endpoint.
- `backend/tasks_app/urls.py` and `backend/tasks_app/admin.py` are declarative configuration and are not modelled.
- The `fetch` of the productivity dashboard component and its `Math.floor(minutes / 60)` display are not modelled.
- Views.TaskTable.UpdateOrder: the `except` branch (400 on a malformed body) is not modelled; the body is a list of integer ids.
- Views.TaskTable.CreateRecurring: the `except` branch (400 on a database error) is not modelled; inserts never fail.
- Serializers.CreateTask: status, priority and recurrence arrive as parsed values, so their choice errors are not modelled. The deadline's format, `null` values and unknown keys are not modelled either. White space is the ASCII and Unicode space characters of `str.isspace()`.
- Serializers.Serialize: the nested `user` object (id, username, email) is represented by the owner's id, and the nested `labels` list is not modelled. No client code reads either.
- Serializers.IsValidCharacterized: only the ASCII part of the username validator is modelled, so a username with non-ASCII letters or digits is refused here and accepted by the source. The email check is the `isEmail` parameter, standing for Django's `EmailValidator`. A field missing from the body is not modelled; it is sent, possibly empty.
- Views.Ordered: rows that tie on both keys of `Meta.ordering` come by ascending id. The database leaves their order open.
