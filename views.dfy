/** The task endpoints of backend/tasks_app/views.py over the task table,
    which is a map from row id to row. The requesting user, the current instant
    and the request body are parameters. */
module Views {
  import opened Wrappers
  import Models
  import TaskJson
  import Serializers
  import Sorting

  /** 404, a 400 with a message, or a 400 with the serializer's errors. */
  datatype ActionError = NotFound | BadRequest(message: string) | Rejected(errors: map<string, Serializers.FieldError>)

  /** A response: a body (HTTP 200/201) or an error (HTTP 404/400). */
  datatype Response<T> = Ok(body: T) | Error(error: ActionError)

  type Table = map<int, Models.Task>

  /** Row `id` exists and belongs to `user`: `get_object()` finds it. */
  predicate Owns(rows: Table, user: int, id: int)
  {
    id in rows && rows[id].user == user
  }

  /** `get_queryset()`: the requesting user's rows and no others. */
  function OwnedBy(rows: Table, user: int): (q: Table)
    ensures forall id :: id in q <==> Owns(rows, user, id)
    ensures forall id :: id in q ==> id in rows && q[id] == rows[id]
  {
    map id | id in rows && rows[id].user == user :: rows[id]
  }

  /** The querysets of the `pending` and `completed` actions: the user's
      rows with that status. */
  function WithStatus(rows: Table, user: int, s: Models.Status): (q: Table)
    ensures forall id :: id in q <==> Owns(rows, user, id) && rows[id].status == s
    ensures forall id :: id in q ==> id in rows && q[id] == rows[id]
  {
    var owned := OwnedBy(rows, user);
    map id | id in owned && owned[id].status == s :: owned[id]
  }

  /** The two lists split the user's rows: nothing is in both, nothing is
      missing. */
  lemma PendingCompletedSplit(rows: Table, user: int)
    ensures WithStatus(rows, user, Models.Pending).Keys !! WithStatus(rows, user, Models.Completed).Keys
    ensures WithStatus(rows, user, Models.Pending).Keys + WithStatus(rows, user, Models.Completed).Keys
         == OwnedBy(rows, user).Keys
  {
    var p := WithStatus(rows, user, Models.Pending).Keys;
    var c := WithStatus(rows, user, Models.Completed).Keys;
    forall id | id in OwnedBy(rows, user).Keys ensures id in p + c {
      assert Owns(rows, user, id);
    }
  }

  /** The rows at `ids`, in that order. */
  function RowsAt(rows: Table, ids: seq<int>): (r: seq<Models.Task>)
    requires forall i :: 0 <= i < |ids| ==> ids[i] in rows
    ensures |r| == |ids|
    ensures forall i :: 0 <= i < |ids| ==> r[i] == rows[ids[i]]
  {
    if ids == [] then [] else [rows[ids[0]]] + RowsAt(rows, ids[1..])
  }

  /** `k` is the least id of `ks`. */
  predicate IsLeast(k: int, ks: set<int>)
  {
    k in ks && forall j :: j in ks ==> k <= j
  }

  /** Some finite set of ids has a least element. */
  lemma {:induction false} LeastExists(ks: set<int>)
    requires ks != {}
    ensures exists k :: IsLeast(k, ks)
    decreases |ks|
  {
    HasElement(ks);
    var x :| x in ks;
    if ks - {x} == {} {
      LeastOfOne(ks, x);
    } else {
      LeastExists(ks - {x});
      var k :| IsLeast(k, ks - {x});
      LeastOfAdded(ks, x, k);
    }
  }

  lemma HasElement(ks: set<int>)
    requires ks != {}
    ensures exists x :: x in ks
  {
    if forall x :: x !in ks {
      assert false;
    }
  }

  lemma LeastOfOne(ks: set<int>, x: int)
    requires x in ks && ks - {x} == {}
    ensures IsLeast(x, ks)
  {
    forall j | j in ks ensures x <= j {
      assert j !in ks - {x};
    }
  }

  lemma LeastOfAdded(ks: set<int>, x: int, k: int)
    requires x in ks && IsLeast(k, ks - {x})
    ensures IsLeast(if x < k then x else k, ks)
  {
    forall j | j in ks ensures (if x < k then x else k) <= j {
      if j != x {
        assert j in ks - {x};
      }
    }
  }

  /** The ids of `ks` in ascending order, each once. */
  function Ascending(ks: set<int>): (r: seq<int>)
    ensures forall k :: multiset(r)[k] == if k in ks then 1 else 0
    ensures forall i :: 0 <= i < |r| ==> r[i] in ks
    decreases ks
  {
    if ks == {} then []
    else
      LeastExists(ks);
      var k :| IsLeast(k, ks);
      var rest := Ascending(ks - {k});
      assert multiset([k] + rest) == multiset{k} + multiset(rest);
      [k] + rest
  }

  /** The sort key of `Meta.ordering = ['order', '-created_at']`. */
  function OrderingKey(rows: Table): int -> (int, int)
  {
    (id: int) => if id in rows then (rows[id].order, -rows[id].createdAt) else (0, 0)
  }

  /** The database's comparison of two rows under that ordering. */
  function OrderingCmp(rows: Table): (int, int) -> int
  {
    (a: int, b: int) =>
      if Sorting.KeyLess(OrderingKey(rows)(a), OrderingKey(rows)(b)) then -1
      else if Sorting.KeyLess(OrderingKey(rows)(b), OrderingKey(rows)(a)) then 1
      else 0
  }

  lemma OrderingAgrees(rows: Table, s: seq<int>)
    ensures Sorting.AgreesOn(OrderingCmp(rows), OrderingKey(rows), s)
  {
    forall i, j | 0 <= i < |s| && 0 <= j < |s|
      ensures OrderingCmp(rows)(s[i], s[j]) < 0 <==> Sorting.KeyLess(OrderingKey(rows)(s[i]), OrderingKey(rows)(s[j]))
    {
      Sorting.KeyLessOrder(OrderingKey(rows)(s[i]), OrderingKey(rows)(s[j]), OrderingKey(rows)(s[i]));
    }
  }

  /** No key inversion is the default order of the rows. */
  lemma SortedIsDefaultOrder(rows: Table, ids: seq<int>)
    requires forall i :: 0 <= i < |ids| ==> ids[i] in rows
    requires Sorting.SortedBy(OrderingKey(rows), ids)
    ensures Models.InDefaultOrder(RowsAt(rows, ids))
  {
    var q := RowsAt(rows, ids);
    forall i, j | 0 <= i < j < |q| ensures Models.ListedBefore(q[i], q[j]) {
      assert !Sorting.KeyLess(OrderingKey(rows)(ids[j]), OrderingKey(rows)(ids[i]));
    }
  }

  /** The ids of the rows `ks` as the database lists them, sorted by
      `Meta.ordering`. Rows that tie on both keys, an order the database
      leaves open, come by ascending id. */
  function Ordered(rows: Table, ks: set<int>): (r: seq<int>)
    requires ks <= rows.Keys
    ensures forall k :: multiset(r)[k] == if k in ks then 1 else 0
    ensures forall i :: 0 <= i < |r| ==> r[i] in ks
    ensures Models.InDefaultOrder(RowsAt(rows, r))
  {
    var e := Ascending(ks);
    OrderedFacts(rows, ks, e);
    Sorting.Sort(OrderingCmp(rows), e)
  }

  lemma OrderedFacts(rows: Table, ks: set<int>, e: seq<int>)
    requires ks <= rows.Keys && e == Ascending(ks)
    ensures var r := Sorting.Sort(OrderingCmp(rows), e);
      multiset(r) == multiset(e) && (forall i :: 0 <= i < |r| ==> r[i] in ks)
      && Models.InDefaultOrder(RowsAt(rows, r))
  {
    var r := Sorting.Sort(OrderingCmp(rows), e);
    Sorting.SortPermutes(OrderingCmp(rows), e);
    OrderingAgrees(rows, e);
    Sorting.SortSorted(OrderingCmp(rows), OrderingKey(rows), e);
    SameMembers(r, e, ks);
    SortedIsDefaultOrder(rows, r);
  }

  lemma SameMembers(r: seq<int>, e: seq<int>, ks: set<int>)
    requires multiset(r) == multiset(e) && forall i :: 0 <= i < |e| ==> e[i] in ks
    ensures forall i :: 0 <= i < |r| ==> r[i] in ks
  {
    forall i | 0 <= i < |r| ensures r[i] in ks {
      assert r[i] in multiset(e);
    }
  }

  /** The ids of the `list` response: each of the user's rows exactly once,
      and no other row, listed in `Meta.ordering`. */
  function ListIds(rows: Table, user: int): (r: seq<int>)
    ensures forall id :: multiset(r)[id] == if Owns(rows, user, id) then 1 else 0
    ensures forall i :: 0 <= i < |r| ==> r[i] in rows
    ensures Models.InDefaultOrder(RowsAt(rows, r))
  {
    Ordered(rows, OwnedBy(rows, user).Keys)
  }

  /** The ids of the `pending` (with `s` = Pending) or `completed` (with
      `s` = Completed) response: each of the user's rows with that status
      exactly once, and no other row, listed in `Meta.ordering`. */
  function StatusIds(rows: Table, user: int, s: Models.Status): (r: seq<int>)
    ensures forall id :: multiset(r)[id] == if Owns(rows, user, id) && rows[id].status == s then 1 else 0
    ensures forall i :: 0 <= i < |r| ==> r[i] in rows
    ensures Models.InDefaultOrder(RowsAt(rows, r))
  {
    Ordered(rows, WithStatus(rows, user, s).Keys)
  }

  /** `task.status = s; task.save()`: `save()` also stamps `updated_at`. */
  function StatusChanged(rows: Table, pk: int, s: Models.Status, now: int): (r: Table)
    requires pk in rows
    ensures r.Keys == rows.Keys
    ensures r[pk].status == s && r[pk].updatedAt == now
    ensures r[pk] == rows[pk].(status := s, updatedAt := now)
    ensures forall id :: id in rows && id != pk ==> r[id] == rows[id]
  {
    rows[pk := rows[pk].(status := s, updatedAt := now)]
  }

  /** Marking twice at the same instant is marking once. */
  lemma StatusChangedIdempotent(rows: Table, pk: int, s: Models.Status, now: int)
    requires pk in rows
    ensures StatusChanged(StatusChanged(rows, pk, s, now), pk, s, now) == StatusChanged(rows, pk, s, now)
  {
  }

  /** A status change touches no row of another user. */
  lemma StatusChangedKeepsOthers(rows: Table, user: int, pk: int, s: Models.Status, now: int, other: int)
    requires Owns(rows, user, pk) && other != user
    ensures OwnedBy(StatusChanged(rows, pk, s, now), other) == OwnedBy(rows, other)
  {
  }

  /** One step of `update_order`: `Task.objects.filter(id=id,
      user=user).update(order=index)`. A queryset update does not stamp
      `updated_at`. */
  function SetOrder(rows: Table, user: int, id: int, index: int): Table
  {
    if Owns(rows, user, id) then rows[id := rows[id].(order := index)] else rows
  }

  /** The table after `update_order` has run over `ids`. */
  function Reindexed(rows: Table, user: int, ids: seq<int>): Table
    decreases |ids|
  {
    if ids == [] then rows
    else SetOrder(Reindexed(rows, user, ids[..|ids| - 1]), user, ids[|ids| - 1], |ids| - 1)
  }

  /** The last index at which `k` occurs in `ids`. */
  function LastIndex(ids: seq<int>, k: int): (i: nat)
    requires k in ids
    ensures i < |ids| && ids[i] == k
    ensures forall j :: i < j < |ids| ==> ids[j] != k
  {
    if ids[|ids| - 1] == k then |ids| - 1 else LastIndex(ids[..|ids| - 1], k)
  }

  /** `update_order` row by row: an owned row listed in `ids` gets the last
      index at which it is listed as its `order`; every other row, and every
      other field, is left as it was. */
  lemma {:induction false} ReindexedAt(rows: Table, user: int, ids: seq<int>, k: int)
    requires k in rows
    ensures Reindexed(rows, user, ids).Keys == rows.Keys
    ensures Reindexed(rows, user, ids)[k]
         == if rows[k].user == user && k in ids then rows[k].(order := LastIndex(ids, k)) else rows[k]
  {
    if ids != [] {
      var init := ids[..|ids| - 1];
      ReindexedAt(rows, user, init, k);
      var last := ids[|ids| - 1];
      if last != k {
        assert k in ids <==> k in init by {
          if k in ids {
            var j :| 0 <= j < |ids| && ids[j] == k;
            assert j != |ids| - 1;
            assert init[j] == k;
          }
        }
        if k in ids {
          assert LastIndex(ids, k) == LastIndex(init, k);
        }
      }
      ReindexedUsers(rows, user, init, last);
    }
  }

  lemma {:induction false} ReindexedUsers(rows: Table, user: int, ids: seq<int>, id: int)
    ensures Reindexed(rows, user, ids).Keys == rows.Keys
    ensures Owns(Reindexed(rows, user, ids), user, id) <==> Owns(rows, user, id)
  {
    if ids != [] {
      ReindexedUsers(rows, user, ids[..|ids| - 1], id);
      ReindexedUsers(rows, user, ids[..|ids| - 1], ids[|ids| - 1]);
    }
  }

  /** An empty order list changes nothing. */
  lemma ReindexedEmpty(rows: Table, user: int)
    ensures Reindexed(rows, user, []) == rows
  {
  }

  /** Drag and drop, end to end: after `update_order` with the ids of all
      the user's rows with status `s`, each once, in any order, the
      `pending` (or `completed`) listing comes back in exactly that order. */
  lemma ReorderedListing(rows: Table, user: int, s: Models.Status, ids: seq<int>)
    requires forall id :: multiset(ids)[id] == if Owns(rows, user, id) && rows[id].status == s then 1 else 0
    ensures StatusIds(Reindexed(rows, user, ids), user, s) == ids
  {
    ListingFacts(rows, user, s, ids);
    SortedByPosition(StatusIds(Reindexed(rows, user, ids), user, s), ids);
  }

  /** No id occurs twice. */
  predicate Distinct(s: seq<int>)
  {
    forall i, j :: 0 <= i < j < |s| ==> s[i] != s[j]
  }

  /** What the listing after `update_order` has in common with `ids`: the
      same ids, each once, with positions in `ids` that never decrease
      along the listing. */
  lemma ListingFacts(rows: Table, user: int, s: Models.Status, ids: seq<int>)
    requires forall id :: multiset(ids)[id] == if Owns(rows, user, id) && rows[id].status == s then 1 else 0
    ensures var listed := StatusIds(Reindexed(rows, user, ids), user, s);
      |listed| == |ids| && Distinct(listed) && Distinct(ids)
      && (forall i :: 0 <= i < |listed| ==> listed[i] in ids)
      && (forall i, j :: 0 <= i < j < |listed| ==> LastIndex(ids, listed[i]) <= LastIndex(ids, listed[j]))
  {
    var listed := StatusIds(Reindexed(rows, user, ids), user, s);
    ListedLength(rows, user, s, ids);
    ListedMembers(rows, user, s, ids);
    ReorderedSameIds(rows, user, s, ids);
    DistinctOfMultiset(ids);
    DistinctOfMultiset(listed);
    forall i, j | 0 <= i < j < |listed| ensures LastIndex(ids, listed[i]) <= LastIndex(ids, listed[j]) {
      PositionsMonotone(rows, user, s, ids, i, j);
    }
  }

  lemma ListedLength(rows: Table, user: int, s: Models.Status, ids: seq<int>)
    requires forall id :: multiset(ids)[id] == if Owns(rows, user, id) && rows[id].status == s then 1 else 0
    ensures |StatusIds(Reindexed(rows, user, ids), user, s)| == |ids|
  {
    var listed := StatusIds(Reindexed(rows, user, ids), user, s);
    ReorderedSameIds(rows, user, s, ids);
    assert |multiset(listed)| == |multiset(ids)|;
  }

  lemma ListedMembers(rows: Table, user: int, s: Models.Status, ids: seq<int>)
    requires forall id :: multiset(ids)[id] == if Owns(rows, user, id) && rows[id].status == s then 1 else 0
    ensures var listed := StatusIds(Reindexed(rows, user, ids), user, s);
      forall i :: 0 <= i < |listed| ==> listed[i] in ids
  {
    var listed := StatusIds(Reindexed(rows, user, ids), user, s);
    ReorderedSameIds(rows, user, s, ids);
    forall i | 0 <= i < |listed| ensures listed[i] in ids {
      assert listed[i] in multiset(listed);
    }
  }

  /** The default order of the listing, with `order` set to the
      positions in `ids`, orders the listing by those positions. */
  lemma PositionsMonotone(rows: Table, user: int, s: Models.Status, ids: seq<int>, i: int, j: int)
    requires forall id :: multiset(ids)[id] == if Owns(rows, user, id) && rows[id].status == s then 1 else 0
    requires 0 <= i < j < |StatusIds(Reindexed(rows, user, ids), user, s)|
    ensures var listed := StatusIds(Reindexed(rows, user, ids), user, s);
      listed[i] in ids && listed[j] in ids && LastIndex(ids, listed[i]) <= LastIndex(ids, listed[j])
  {
    var after := Reindexed(rows, user, ids);
    var listed := StatusIds(after, user, s);
    ListedMembers(rows, user, s, ids);
    var q := RowsAt(after, listed);
    assert Models.ListedBefore(q[i], q[j]);
    ReorderedOrderValue(rows, user, s, ids, listed[i]);
    ReorderedOrderValue(rows, user, s, ids, listed[j]);
  }

  /** A listed id's row has its position in `ids` as `order`. */
  lemma ReorderedOrderValue(rows: Table, user: int, s: Models.Status, ids: seq<int>, k: int)
    requires forall id :: multiset(ids)[id] == if Owns(rows, user, id) && rows[id].status == s then 1 else 0
    requires k in ids
    ensures k in Reindexed(rows, user, ids) && Reindexed(rows, user, ids)[k].order == LastIndex(ids, k)
  {
    assert k in multiset(ids);
    ReindexedAt(rows, user, ids, k);
  }

  /** A list that holds the ids of `ids`, each once, ordered by their
      positions in `ids`, is `ids`. */
  lemma SortedByPosition(listed: seq<int>, ids: seq<int>)
    requires |listed| == |ids| && Distinct(listed) && Distinct(ids)
    requires forall i :: 0 <= i < |listed| ==> listed[i] in ids
    requires forall i, j :: 0 <= i < j < |listed| ==> LastIndex(ids, listed[i]) <= LastIndex(ids, listed[j])
    ensures listed == ids
  {
    forall k | 0 <= k < |listed| - 1
      ensures listed[k] != listed[k + 1] && LastIndex(ids, listed[k]) <= LastIndex(ids, listed[k + 1])
    {
    }
    PositionsStrict(listed, ids);
    var pos := Positions(listed, ids);
    forall i | 0 <= i < |listed| ensures listed[i] == ids[i] {
      IncreasingAtLeast(pos, |ids|, i);
      IncreasingAtMost(pos, |ids|, i);
    }
  }

  /** The position in `ids` of each listed id. */
  function Positions(listed: seq<int>, ids: seq<int>): (pos: seq<int>)
    requires |listed| == |ids|
    requires forall i :: 0 <= i < |listed| ==> listed[i] in ids
    ensures |pos| == |ids|
    ensures forall i :: 0 <= i < |pos| ==> 0 <= pos[i] < |ids| && ids[pos[i]] == listed[i]
    ensures forall i :: 0 <= i < |pos| ==> pos[i] == LastIndex(ids, listed[i])
  {
    seq(|listed|, i requires 0 <= i < |listed| => LastIndex(ids, listed[i]))
  }

  lemma PositionsStrict(listed: seq<int>, ids: seq<int>)
    requires |listed| == |ids|
    requires forall i :: 0 <= i < |listed| ==> listed[i] in ids
    requires forall k :: 0 <= k < |listed| - 1 ==>
      listed[k] != listed[k + 1] && LastIndex(ids, listed[k]) <= LastIndex(ids, listed[k + 1])
    ensures forall k :: 0 <= k < |listed| - 1 ==> Positions(listed, ids)[k] < Positions(listed, ids)[k + 1]
  {
  }

  lemma {:induction false} IncreasingAtLeast(p: seq<int>, n: int, i: int)
    requires |p| == n && forall k :: 0 <= k < n ==> 0 <= p[k] < n
    requires forall k :: 0 <= k < n - 1 ==> p[k] < p[k + 1]
    requires 0 <= i < n
    ensures p[i] >= i
  {
    if i > 0 {
      IncreasingAtLeast(p, n, i - 1);
    }
  }

  lemma {:induction false} IncreasingAtMost(p: seq<int>, n: int, i: int)
    requires |p| == n && forall k :: 0 <= k < n ==> 0 <= p[k] < n
    requires forall k :: 0 <= k < n - 1 ==> p[k] < p[k + 1]
    requires 0 <= i < n
    ensures p[i] <= i
    decreases n - i
  {
    if i < n - 1 {
      IncreasingAtMost(p, n, i + 1);
    }
  }

  /** The listing after `update_order` holds the same ids as the order
      list. */
  lemma ReorderedSameIds(rows: Table, user: int, s: Models.Status, ids: seq<int>)
    requires forall id :: multiset(ids)[id] == if Owns(rows, user, id) && rows[id].status == s then 1 else 0
    ensures multiset(StatusIds(Reindexed(rows, user, ids), user, s)) == multiset(ids)
    ensures forall id :: multiset(StatusIds(Reindexed(rows, user, ids), user, s))[id] <= 1
  {
    var listed := StatusIds(Reindexed(rows, user, ids), user, s);
    forall id ensures multiset(listed)[id] == multiset(ids)[id] {
      SameSelection(rows, user, s, ids, id);
    }
  }

  /** `update_order` changes neither owners nor statuses. */
  lemma SameSelection(rows: Table, user: int, s: Models.Status, ids: seq<int>, id: int)
    ensures var after := Reindexed(rows, user, ids);
      (Owns(after, user, id) && after[id].status == s) <==> (Owns(rows, user, id) && rows[id].status == s)
  {
    ReindexedUsers(rows, user, ids, id);
    if id in rows {
      ReindexedAt(rows, user, ids, id);
    }
  }

  /** A list in which nothing occurs twice has no repeats. */
  lemma DistinctOfMultiset(s: seq<int>)
    requires forall x :: multiset(s)[x] <= 1
    ensures Distinct(s)
  {
    forall i, j | 0 <= i < j < |s| ensures s[i] != s[j] {
      if s[i] == s[j] {
        TwoCopies(s, i, j);
      }
    }
  }

  lemma TwoCopies(s: seq<int>, i: int, j: int)
    requires 0 <= i < j < |s| && s[i] == s[j]
    ensures multiset(s)[s[i]] >= 2
  {
    assert s == s[..j] + s[j..];
    assert s[i] == s[..j][i];
    assert s[j] == s[j..][0];
    assert multiset(s) == multiset(s[..j]) + multiset(s[j..]);
  }

  /** `timedelta(days=1)`, `timedelta(weeks=1)`, `timedelta(days=30)`; an
      absent deadline stays absent. */
  function NextDeadline(r: Models.Recurrence, deadline: Option<int>): Option<int>
  {
    match deadline
    case None => None
    case Some(d) =>
      match r
      case Daily => Some(d + 1 * Models.MsPerDay)
      case Weekly => Some(d + 7 * Models.MsPerDay)
      case Monthly => Some(d + 30 * Models.MsPerDay)
      case NoRepeat => Some(d)
  }

  function ShiftDays(r: Models.Recurrence): int
  {
    match r
    case Daily => 1
    case Weekly => 7
    case Monthly => 30
    case NoRepeat => 0
  }

  /** The next instance of a recurring task. */
  function RecurringInstance(t: Models.Task, id: int, now: int): (n: Models.Task)
    ensures n.id == id && n.user == t.user && n.title == t.title && n.description == t.description
    ensures n.priority == t.priority && n.category == t.category && n.recurrence == t.recurrence
    ensures n.status == Models.Pending && n.isRecurring && n.parentTask == Some(t.id)
    ensures n.deadline.None? <==> t.deadline.None?
    ensures n.order == 0 && n.createdAt == now && n.updatedAt == now
  {
    Models.Task(id, t.user, t.title, t.description, Models.Pending, t.priority,
      NextDeadline(t.recurrence, t.deadline), t.category, t.recurrence, true, Some(t.id), 0, now, now)
  }

  /** Measured in calendar days, the next instance is due 1, 7 or 30 days
      after the original, wherever "today" is. */
  lemma RecurringDeadlineDays(t: Models.Task, id: int, now: int)
    requires t.deadline.Some?
    ensures var n := RecurringInstance(t, id, now);
      Models.DaysUntilDeadline(n, now).value
        == Models.DaysUntilDeadline(t, now).value + ShiftDays(t.recurrence)
  {
    Models.DateOfShift(t.deadline.value, ShiftDays(t.recurrence));
  }

  /** `create_from_template`: the request's title when one is given, else
      the template's name; description, priority and recurrence from the
      template; everything else the field defaults. */
  function FromTemplate(tpl: Models.Template, user: int, title: Option<string>, id: int, now: int): (t: Models.Task)
    ensures t.title == (if title.Some? then title.value else tpl.name)
    ensures t.description == tpl.description && t.priority == tpl.priority && t.recurrence == tpl.recurrence
    ensures t.user == user && t.id == id
    ensures t.status == Models.Pending && t.deadline.None? && t.category == Models.DefaultCategory
    ensures !t.isRecurring && t.parentTask.None? && t.order == 0
    ensures t.createdAt == now && t.updatedAt == now
  {
    Models.NewTask(id, user, title.GetOr(tpl.name), tpl.description, tpl.priority, tpl.recurrence, None, now)
  }

  class TaskTable {
    var rows: Table
    var templates: map<int, Models.Template>
    var nextId: int

    /** Every row is stored under its own id, and new ids are fresh. */
    ghost predicate Valid()
      reads this
    {
      forall id :: id in rows ==> rows[id].id == id && id < nextId
    }

    constructor (templates: map<int, Models.Template>)
      ensures Valid() && rows == map[] && this.templates == templates && nextId == 1
    {
      rows := map[];
      this.templates := templates;
      nextId := 1;
    }

    /** `save()` of a new row: it is stored under the next id. */
    method Insert(t: Models.Task)
      requires Valid() && t.id == nextId
      modifies this
      ensures Valid() && templates == old(templates)
      ensures old(nextId) !in old(rows) && rows == old(rows)[old(nextId) := t] && nextId == old(nextId) + 1
    {
      rows := rows[nextId := t];
      nextId := nextId + 1;
    }

    /** The `list` action: the serialized rows of `ListIds`, in that order. */
    function ListOf(user: int): (q: seq<TaskJson.Task>)
      reads this
      ensures var ids := ListIds(rows, user);
        |q| == |ids| && forall i :: 0 <= i < |q| ==> q[i] == Serializers.Serialize(rows[ids[i]])
    {
      Serializers.SerializeAll(RowsAt(rows, ListIds(rows, user)))
    }

    /** The `pending` action: the serialized rows of `StatusIds`, in that
        order. */
    function PendingOf(user: int): (q: seq<TaskJson.Task>)
      reads this
      ensures var ids := StatusIds(rows, user, Models.Pending);
        |q| == |ids| && forall i :: 0 <= i < |q| ==> q[i] == Serializers.Serialize(rows[ids[i]])
    {
      Serializers.SerializeAll(RowsAt(rows, StatusIds(rows, user, Models.Pending)))
    }

    /** The `completed` action. */
    function CompletedOf(user: int): (q: seq<TaskJson.Task>)
      reads this
      ensures var ids := StatusIds(rows, user, Models.Completed);
        |q| == |ids| && forall i :: 0 <= i < |q| ==> q[i] == Serializers.Serialize(rows[ids[i]])
    {
      Serializers.SerializeAll(RowsAt(rows, StatusIds(rows, user, Models.Completed)))
    }

    /** `mark_complete` (with `s` = Completed) and `mark_pending` (with `s` =
        Pending). */
    method MarkStatus(user: int, pk: int, s: Models.Status, now: int) returns (r: Response<TaskJson.Task>)
      requires Valid()
      modifies this
      ensures Valid() && templates == old(templates) && nextId == old(nextId)
      ensures Owns(old(rows), user, pk) ==>
        rows == StatusChanged(old(rows), pk, s, now) && r == Ok(Serializers.Serialize(rows[pk]))
      ensures !Owns(old(rows), user, pk) ==> rows == old(rows) && r == Error(NotFound)
    {
      if pk in rows && rows[pk].user == user {
        rows := rows[pk := rows[pk].(status := s, updatedAt := now)];
        r := Ok(Serializers.Serialize(rows[pk]));
      } else {
        r := Error(NotFound);
      }
    }

    method MarkComplete(user: int, pk: int, now: int) returns (r: Response<TaskJson.Task>)
      requires Valid()
      modifies this
      ensures Valid() && templates == old(templates) && nextId == old(nextId)
      ensures Owns(old(rows), user, pk) ==>
        rows == StatusChanged(old(rows), pk, Models.Completed, now) && r == Ok(Serializers.Serialize(rows[pk]))
      ensures !Owns(old(rows), user, pk) ==> rows == old(rows) && r == Error(NotFound)
    {
      r := MarkStatus(user, pk, Models.Completed, now);
    }

    method MarkPending(user: int, pk: int, now: int) returns (r: Response<TaskJson.Task>)
      requires Valid()
      modifies this
      ensures Valid() && templates == old(templates) && nextId == old(nextId)
      ensures Owns(old(rows), user, pk) ==>
        rows == StatusChanged(old(rows), pk, Models.Pending, now) && r == Ok(Serializers.Serialize(rows[pk]))
      ensures !Owns(old(rows), user, pk) ==> rows == old(rows) && r == Error(NotFound)
    {
      r := MarkStatus(user, pk, Models.Pending, now);
    }

    /** `update_order`: for each position `index` of `orderData`, the owned row
        with that id gets `order = index`. */
    method UpdateOrder(user: int, orderData: seq<int>) returns (r: Response<string>)
      requires Valid()
      modifies this
      ensures Valid() && templates == old(templates) && nextId == old(nextId)
      ensures rows == Reindexed(old(rows), user, orderData)
      ensures r == Ok("Order updated successfully")
    {
      var i := 0;
      while i < |orderData|
        invariant 0 <= i <= |orderData|
        invariant Valid() && templates == old(templates) && nextId == old(nextId)
        invariant rows == Reindexed(old(rows), user, orderData[..i])
      {
        var id := orderData[i];
        assert orderData[..i + 1][..i] == orderData[..i];
        if id in rows && rows[id].user == user {
          rows := rows[id := rows[id].(order := i)];
        }
        i := i + 1;
      }
      assert orderData[..|orderData|] == orderData;
      r := Ok("Order updated successfully");
    }

    /** `create_recurring`: a task that repeats gets a new pending instance;
        the original row is not touched. */
    method CreateRecurring(user: int, pk: int, now: int) returns (r: Response<TaskJson.Task>)
      requires Valid()
      modifies this
      ensures Valid() && templates == old(templates)
      ensures !Owns(old(rows), user, pk) ==> r == Error(NotFound) && rows == old(rows) && nextId == old(nextId)
      ensures Owns(old(rows), user, pk) && old(rows)[pk].recurrence == Models.NoRepeat ==>
        r == Error(BadRequest("Task is not recurring")) && rows == old(rows) && nextId == old(nextId)
      ensures Owns(old(rows), user, pk) && old(rows)[pk].recurrence != Models.NoRepeat ==>
        var n := RecurringInstance(old(rows)[pk], old(nextId), now);
        old(nextId) !in old(rows) && rows == old(rows)[old(nextId) := n] && nextId == old(nextId) + 1
        && r == Ok(Serializers.Serialize(n))
    {
      if !(pk in rows && rows[pk].user == user) {
        r := Error(NotFound);
      } else if rows[pk].recurrence == Models.NoRepeat {
        r := Error(BadRequest("Task is not recurring"));
      } else {
        var n := RecurringInstance(rows[pk], nextId, now);
        Insert(n);
        r := Ok(Serializers.Serialize(n));
      }
    }

    /** The `create` action: `perform_create` saves the serializer with the
        requesting user as owner. */
    method Create(user: int, input: Serializers.TaskInput, now: int) returns (r: Response<TaskJson.Task>)
      requires Valid()
      modifies this
      ensures Valid() && templates == old(templates)
      ensures Serializers.CreateTask(input, user, old(nextId), now).Invalid? ==>
        rows == old(rows) && nextId == old(nextId)
        && r == Error(Rejected(Serializers.CreateTask(input, user, old(nextId), now).errors))
      ensures Serializers.CreateTask(input, user, old(nextId), now).Ok? ==>
        var t := Serializers.CreateTask(input, user, old(nextId), now).value;
        old(nextId) !in old(rows) && rows == old(rows)[old(nextId) := t] && nextId == old(nextId) + 1
        && r == Ok(Serializers.Serialize(t))
    {
      var created := Serializers.CreateTask(input, user, nextId, now);
      if created.Invalid? {
        r := Error(Rejected(created.errors));
      } else {
        Insert(created.value);
        r := Ok(Serializers.Serialize(created.value));
      }
    }

    /** `TaskTemplateViewSet.create_from_template`: the template must be the
        requesting user's. */
    method CreateFromTemplate(user: int, pk: int, title: Option<string>, now: int) returns (r: Response<TaskJson.Task>)
      requires Valid()
      modifies this
      ensures Valid() && templates == old(templates)
      ensures !(pk in templates && templates[pk].user == user) ==>
        r == Error(NotFound) && rows == old(rows) && nextId == old(nextId)
      ensures pk in templates && templates[pk].user == user ==>
        var t := FromTemplate(templates[pk], user, title, old(nextId), now);
        old(nextId) !in old(rows) && rows == old(rows)[old(nextId) := t] && nextId == old(nextId) + 1
        && r == Ok(Serializers.Serialize(t))
    {
      if pk in templates && templates[pk].user == user {
        var t := FromTemplate(templates[pk], user, title, nextId, now);
        Insert(t);
        r := Ok(Serializers.Serialize(t));
      } else {
        r := Error(NotFound);
      }
    }
  }
}
