/** `Array.prototype.sort` with a comparator, as the stable insertion sort
    it behaves like on the short lists of the client: each element goes in
    before the first already-sorted element it compares below (comparator
    result negative), so after every element it ties with. The theorems
    relate the sort to a key the comparator agrees with. */
module Sorting {
  import Seqs

  function Insert<T>(cmp: (T, T) -> int, x: T, s: seq<T>): (r: seq<T>)
    ensures |r| == |s| + 1
    ensures multiset(r) == multiset(s) + multiset{x}
  {
    if s == [] then [x]
    else if cmp(x, s[0]) < 0 then [x] + s
    else
      assert s == [s[0]] + s[1..];
      [s[0]] + Insert(cmp, x, s[1..])
  }

  function Sort<T>(cmp: (T, T) -> int, s: seq<T>): seq<T>
  {
    if s == [] then []
    else Insert(cmp, s[|s| - 1], Sort(cmp, s[..|s| - 1]))
  }

  /** Whatever the comparator, sorting neither adds nor loses an element. */
  lemma {:induction false} SortPermutes<T>(cmp: (T, T) -> int, s: seq<T>)
    ensures |Sort(cmp, s)| == |s|
    ensures multiset(Sort(cmp, s)) == multiset(s)
  {
    if s != [] {
      SortPermutes(cmp, s[..|s| - 1]);
      assert s == s[..|s| - 1] + [s[|s| - 1]];
    }
  }

  /** Keys are pairs compared lexicographically. */
  predicate KeyLess(p: (int, int), q: (int, int))
  {
    p.0 < q.0 || (p.0 == q.0 && p.1 < q.1)
  }

  lemma KeyLessOrder(p: (int, int), q: (int, int), r: (int, int))
    ensures !KeyLess(p, p)
    ensures KeyLess(p, q) ==> !KeyLess(q, p)
    ensures KeyLess(p, q) && KeyLess(q, r) ==> KeyLess(p, r)
    ensures !KeyLess(p, q) && !KeyLess(q, p) ==> p == q
  {
  }

  /** No later element has a smaller key than an earlier one. */
  predicate SortedBy<T>(key: T -> (int, int), s: seq<T>)
  {
    forall i, j :: 0 <= i < j < |s| ==> !KeyLess(key(s[j]), key(s[i]))
  }

  /** Comparing `x` with any element of `s` is comparing keys. */
  predicate Agrees<T>(cmp: (T, T) -> int, key: T -> (int, int), x: T, s: seq<T>)
  {
    forall i :: 0 <= i < |s| ==> (cmp(x, s[i]) < 0 <==> KeyLess(key(x), key(s[i])))
  }

  /** Comparing any two elements of `s` is comparing keys. */
  predicate AgreesOn<T>(cmp: (T, T) -> int, key: T -> (int, int), s: seq<T>)
  {
    forall i, j :: 0 <= i < |s| && 0 <= j < |s| ==> (cmp(s[i], s[j]) < 0 <==> KeyLess(key(s[i]), key(s[j])))
  }

  lemma SortedTail<T>(key: T -> (int, int), s: seq<T>)
    requires s != [] && SortedBy(key, s)
    ensures SortedBy(key, s[1..])
  {
    forall i, j | 0 <= i < j < |s| - 1 ensures !KeyLess(key(s[1..][j]), key(s[1..][i])) {
      assert s[1..][j] == s[j + 1] && s[1..][i] == s[i + 1];
    }
  }

  lemma AgreesTail<T>(cmp: (T, T) -> int, key: T -> (int, int), x: T, s: seq<T>)
    requires s != [] && Agrees(cmp, key, x, s)
    ensures Agrees(cmp, key, x, s[1..])
  {
    var t := s[1..];
    forall i | 0 <= i < |t| ensures (cmp(x, t[i]) < 0 <==> KeyLess(key(x), key(t[i]))) {
      assert t[i] == s[i + 1];
    }
  }

  lemma {:induction false} InsertSorted<T>(cmp: (T, T) -> int, key: T -> (int, int), x: T, s: seq<T>)
    requires Agrees(cmp, key, x, s) && SortedBy(key, s)
    ensures SortedBy(key, Insert(cmp, x, s))
  {
    if s != [] {
      if cmp(x, s[0]) < 0 {
        InsertSortedFront(cmp, key, x, s);
      } else {
        SortedTail(key, s);
        AgreesTail(cmp, key, x, s);
        InsertSorted(cmp, key, x, s[1..]);
        InsertSortedBehind(cmp, key, x, s);
      }
    }
  }

  /** An element that goes in front keeps the list sorted. */
  lemma InsertSortedFront<T>(cmp: (T, T) -> int, key: T -> (int, int), x: T, s: seq<T>)
    requires s != [] && Agrees(cmp, key, x, s) && SortedBy(key, s) && cmp(x, s[0]) < 0
    ensures SortedBy(key, Insert(cmp, x, s))
  {
    var k0 := key(s[0]);
    var out := [x] + s;
    forall i, j | 0 <= i < j < |out| ensures !KeyLess(key(out[j]), key(out[i])) {
      if i == 0 {
        KeyLessOrder(key(out[j]), key(x), k0);
        assert j == 1 || !KeyLess(key(s[j - 1]), k0);
      } else {
        assert out[i] == s[i - 1] && out[j] == s[j - 1];
      }
    }
  }

  /** An element inserted behind the head, into a sorted tail, keeps the
      list sorted. */
  lemma InsertSortedBehind<T>(cmp: (T, T) -> int, key: T -> (int, int), x: T, s: seq<T>)
    requires s != [] && Agrees(cmp, key, x, s) && SortedBy(key, s) && cmp(x, s[0]) >= 0
    requires SortedBy(key, Insert(cmp, x, s[1..]))
    ensures SortedBy(key, Insert(cmp, x, s))
  {
    HeadBelowInserted(key, x, s, Insert(cmp, x, s[1..]));
    ConsSorted(key, s[0], Insert(cmp, x, s[1..]));
    assert Insert(cmp, x, s) == [s[0]] + Insert(cmp, x, s[1..]);
  }

  /** The head of a sorted list has no larger key than the rest of it or
      than `x`, so nor than any permutation of the two. */
  lemma HeadBelowInserted<T>(key: T -> (int, int), x: T, s: seq<T>, r: seq<T>)
    requires s != [] && SortedBy(key, s) && !KeyLess(key(x), key(s[0]))
    requires multiset(r) == multiset(s[1..]) + multiset{x}
    ensures forall j :: 0 <= j < |r| ==> !KeyLess(key(r[j]), key(s[0]))
  {
    var t := s[1..];
    forall j | 0 <= j < |r| ensures !KeyLess(key(r[j]), key(s[0])) {
      assert r[j] in multiset(r);
      if r[j] != x {
        assert r[j] in multiset(t);
        var m :| 0 <= m < |t| && t[m] == r[j];
        assert s[m + 1] == r[j];
      }
    }
  }

  /** A key no larger than every key of a sorted list can go in front. */
  lemma ConsSorted<T>(key: T -> (int, int), h: T, r: seq<T>)
    requires SortedBy(key, r)
    requires forall j :: 0 <= j < |r| ==> !KeyLess(key(r[j]), key(h))
    ensures SortedBy(key, [h] + r)
  {
    var out := [h] + r;
    forall i, j | 0 <= i < j < |out| ensures !KeyLess(key(out[j]), key(out[i])) {
      if i == 0 {
        assert out[j] == r[j - 1];
      } else {
        assert out[i] == r[i - 1] && out[j] == r[j - 1];
      }
    }
  }

  /** The last element of `s` agrees with every element of a permutation of
      the others. */
  lemma AgreesLast<T>(cmp: (T, T) -> int, key: T -> (int, int), s: seq<T>, u: seq<T>)
    requires s != [] && AgreesOn(cmp, key, s) && multiset(u) == multiset(s[..|s| - 1])
    ensures Agrees(cmp, key, s[|s| - 1], u)
  {
    forall i | 0 <= i < |u| ensures (cmp(s[|s| - 1], u[i]) < 0 <==> KeyLess(key(s[|s| - 1]), key(u[i]))) {
      assert u[i] in multiset(s[..|s| - 1]);
      var m :| 0 <= m < |s| - 1 && s[..|s| - 1][m] == u[i];
      assert s[m] == u[i];
    }
  }

  lemma AgreesOnInit<T>(cmp: (T, T) -> int, key: T -> (int, int), s: seq<T>)
    requires s != [] && AgreesOn(cmp, key, s)
    ensures AgreesOn(cmp, key, s[..|s| - 1])
  {
    var init := s[..|s| - 1];
    forall i, j | 0 <= i < |init| && 0 <= j < |init|
      ensures (cmp(init[i], init[j]) < 0 <==> KeyLess(key(init[i]), key(init[j]))) {
      assert init[i] == s[i] && init[j] == s[j];
    }
  }

  /** When the comparator agrees with the key on the list, the sorted list
      has no inversion. */
  lemma {:induction false} SortSorted<T>(cmp: (T, T) -> int, key: T -> (int, int), s: seq<T>)
    requires AgreesOn(cmp, key, s)
    ensures SortedBy(key, Sort(cmp, s))
  {
    if s != [] {
      var init := s[..|s| - 1];
      AgreesOnInit(cmp, key, s);
      SortSorted(cmp, key, init);
      SortPermutes(cmp, init);
      AgreesLast(cmp, key, s, Sort(cmp, init));
      InsertSorted(cmp, key, s[|s| - 1], Sort(cmp, init));
    }
  }

  function SameKey<T>(key: T -> (int, int), k: (int, int)): T -> bool
  {
    t => key(t) == k
  }

  /** An element inserted in front of a sorted list has a smaller key than
      all of it, so none of the list shares its key. */
  lemma InsertedInFront<T>(cmp: (T, T) -> int, key: T -> (int, int), x: T, s: seq<T>)
    requires s != [] && Agrees(cmp, key, x, s) && SortedBy(key, s) && cmp(x, s[0]) < 0
    ensures Seqs.Filter(s, SameKey(key, key(x))) == []
  {
    forall j | 0 <= j < |s| ensures key(s[j]) != key(x) {
      assert j == 0 || !KeyLess(key(s[j]), key(s[0]));
    }
    Seqs.FilterNone(s, SameKey(key, key(x)));
  }

  lemma InsertFrontStable<T>(cmp: (T, T) -> int, key: T -> (int, int), x: T, s: seq<T>, k: (int, int))
    requires s != [] && Agrees(cmp, key, x, s) && SortedBy(key, s) && cmp(x, s[0]) < 0
    ensures Seqs.Filter(Insert(cmp, x, s), SameKey(key, k))
         == Seqs.Filter(s, SameKey(key, k)) + (if key(x) == k then [x] else [])
  {
    var p := SameKey(key, k);
    assert Insert(cmp, x, s) == [x] + s;
    Seqs.FilterCons(x, s, p);
    if key(x) == k {
      InsertedInFront(cmp, key, x, s);
      assert Seqs.Filter(Insert(cmp, x, s), p) == [x];
    } else {
      assert Seqs.Filter(Insert(cmp, x, s), p) == Seqs.Filter(s, p);
    }
  }

  lemma {:induction false} InsertStable<T>(cmp: (T, T) -> int, key: T -> (int, int), x: T, s: seq<T>, k: (int, int))
    requires Agrees(cmp, key, x, s) && SortedBy(key, s)
    ensures Seqs.Filter(Insert(cmp, x, s), SameKey(key, k))
         == Seqs.Filter(s, SameKey(key, k)) + (if key(x) == k then [x] else [])
  {
    var p := SameKey(key, k);
    var tail := if key(x) == k then [x] else [];
    if s == [] {
      Seqs.FilterCons(x, [], p);
    } else if cmp(x, s[0]) < 0 {
      InsertFrontStable(cmp, key, x, s, k);
    } else {
      SortedTail(key, s);
      AgreesTail(cmp, key, x, s);
      InsertStable(cmp, key, x, s[1..], k);
      InsertBehindHead(cmp, x, s, p, tail);
    }
  }

  /** Inserting behind the head keeps the head in front of the filtered
      rest. */
  lemma InsertBehindHead<T>(cmp: (T, T) -> int, x: T, s: seq<T>, p: T -> bool, tail: seq<T>)
    requires s != [] && cmp(x, s[0]) >= 0
    requires Seqs.Filter(Insert(cmp, x, s[1..]), p) == Seqs.Filter(s[1..], p) + tail
    ensures Seqs.Filter(Insert(cmp, x, s), p) == Seqs.Filter(s, p) + tail
  {
    var t := s[1..];
    assert Insert(cmp, x, s) == [s[0]] + Insert(cmp, x, t);
    Seqs.FilterCons(s[0], Insert(cmp, x, t), p);
    Seqs.FilterHead(s, p);
    Seqs.ConcatAssoc(if p(s[0]) then [s[0]] else [], Seqs.Filter(t, p), tail);
  }

  /** The sort is stable: the elements that share a key keep their input
      order. */
  lemma {:induction false} SortStable<T>(cmp: (T, T) -> int, key: T -> (int, int), s: seq<T>, k: (int, int))
    requires AgreesOn(cmp, key, s)
    ensures Seqs.Filter(Sort(cmp, s), SameKey(key, k)) == Seqs.Filter(s, SameKey(key, k))
  {
    if s != [] {
      AgreesOnInit(cmp, key, s);
      SortStable(cmp, key, s[..|s| - 1], k);
      SortStableStep(cmp, key, s, k);
    }
  }

  /** One step of the stability proof: the last element is inserted into
      the sorted rest. */
  lemma SortStableStep<T>(cmp: (T, T) -> int, key: T -> (int, int), s: seq<T>, k: (int, int))
    requires s != [] && AgreesOn(cmp, key, s)
    requires Seqs.Filter(Sort(cmp, s[..|s| - 1]), SameKey(key, k)) == Seqs.Filter(s[..|s| - 1], SameKey(key, k))
    ensures Seqs.Filter(Sort(cmp, s), SameKey(key, k)) == Seqs.Filter(s, SameKey(key, k))
  {
    InsertLastStable(cmp, key, s, k);
    FilterSortLast(cmp, s, SameKey(key, k));
    FilterLastKey(key, k, s);
  }

  lemma FilterSortLast<T>(cmp: (T, T) -> int, s: seq<T>, p: T -> bool)
    requires s != []
    ensures Seqs.Filter(Sort(cmp, s), p) == Seqs.Filter(Insert(cmp, s[|s| - 1], Sort(cmp, s[..|s| - 1])), p)
  {
  }

  lemma FilterLastKey<T>(key: T -> (int, int), k: (int, int), s: seq<T>)
    requires s != []
    ensures Seqs.Filter(s, SameKey(key, k))
         == Seqs.Filter(s[..|s| - 1], SameKey(key, k)) + (if key(s[|s| - 1]) == k then [s[|s| - 1]] else [])
  {
    FilterLast(s[..|s| - 1], s[|s| - 1], SameKey(key, k));
    assert s == s[..|s| - 1] + [s[|s| - 1]];
  }

  /** Inserting the last element into the sorted front adds it behind the
      elements of its key. */
  lemma InsertLastStable<T>(cmp: (T, T) -> int, key: T -> (int, int), s: seq<T>, k: (int, int))
    requires s != [] && AgreesOn(cmp, key, s)
    ensures Seqs.Filter(Insert(cmp, s[|s| - 1], Sort(cmp, s[..|s| - 1])), SameKey(key, k))
         == Seqs.Filter(Sort(cmp, s[..|s| - 1]), SameKey(key, k)) + (if key(s[|s| - 1]) == k then [s[|s| - 1]] else [])
  {
    var init := s[..|s| - 1];
    AgreesOnInit(cmp, key, s);
    SortSorted(cmp, key, init);
    SortPermutes(cmp, init);
    AgreesLast(cmp, key, s, Sort(cmp, init));
    InsertStable(cmp, key, s[|s| - 1], Sort(cmp, init), k);
  }

  /** Filtering a list with one more element at the end. */
  lemma FilterLast<T>(init: seq<T>, x: T, p: T -> bool)
    ensures Seqs.Filter(init + [x], p) == Seqs.Filter(init, p) + (if p(x) then [x] else [])
  {
    Seqs.FilterConcat(init, [x], p);
    FilterOne(x, p);
  }

  lemma FilterOne<T>(x: T, p: T -> bool)
    ensures Seqs.Filter([x], p) == (if p(x) then [x] else [])
  {
    assert [x][1..] == [];
  }

  /** An element that compares below none of the list goes last. */
  lemma {:induction false} InsertTied<T>(cmp: (T, T) -> int, x: T, s: seq<T>)
    requires forall i :: 0 <= i < |s| ==> cmp(x, s[i]) >= 0
    ensures Insert(cmp, x, s) == s + [x]
  {
    if s != [] {
      InsertTied(cmp, x, s[1..]);
    }
  }

  /** A comparator that never sees a negative result leaves the list as it
      is. */
  lemma {:induction false} SortTied<T>(cmp: (T, T) -> int, s: seq<T>)
    requires forall i, j :: 0 <= i < |s| && 0 <= j < |s| ==> cmp(s[i], s[j]) >= 0
    ensures Sort(cmp, s) == s
  {
    if s != [] {
      TiedParts(cmp, s);
      SortTied(cmp, s[..|s| - 1]);
      SortTiedStep(cmp, s[..|s| - 1], s[|s| - 1]);
      Seqs.LastSplit(s);
    }
  }

  lemma SortTiedStep<T>(cmp: (T, T) -> int, init: seq<T>, x: T)
    requires Sort(cmp, init) == init
    requires forall i :: 0 <= i < |init| ==> cmp(x, init[i]) >= 0
    ensures Sort(cmp, init + [x]) == init + [x]
  {
    SortSnoc(cmp, init, x);
    InsertTied(cmp, x, init);
  }

  /** Sorting a list with one more element at the end inserts it into the
      sorted front. */
  lemma SortSnoc<T>(cmp: (T, T) -> int, init: seq<T>, x: T)
    ensures Sort(cmp, init + [x]) == Insert(cmp, x, Sort(cmp, init))
  {
    var s := init + [x];
    assert s[..|s| - 1] == init && s[|s| - 1] == x;
  }

  /** The ties hold on the front of the list, and between its last element
      and the front. */
  lemma TiedParts<T>(cmp: (T, T) -> int, s: seq<T>)
    requires s != []
    requires forall i, j :: 0 <= i < |s| && 0 <= j < |s| ==> cmp(s[i], s[j]) >= 0
    ensures var init := s[..|s| - 1];
      (forall i, j :: 0 <= i < |init| && 0 <= j < |init| ==> cmp(init[i], init[j]) >= 0)
      && (forall i :: 0 <= i < |init| ==> cmp(s[|s| - 1], init[i]) >= 0)
  {
    var init := s[..|s| - 1];
    forall i, j | 0 <= i < |init| && 0 <= j < |init| ensures cmp(init[i], init[j]) >= 0 {
      assert init[i] == s[i] && init[j] == s[j];
    }
    forall i | 0 <= i < |init| ensures cmp(s[|s| - 1], init[i]) >= 0 {
      assert init[i] == s[i];
    }
  }

  /** A filter of a sorted list is sorted. */
  lemma {:induction false} FilterKeepsSorted<T>(key: T -> (int, int), s: seq<T>, p: T -> bool)
    requires SortedBy(key, s)
    ensures SortedBy(key, Seqs.Filter(s, p))
  {
    if s != [] {
      SortedTail(key, s);
      FilterKeepsSorted(key, s[1..], p);
      var r := Seqs.Filter(s[1..], p);
      forall j | 0 <= j < |r| ensures !KeyLess(key(r[j]), key(s[0])) {
        var m :| 0 <= m < |s[1..]| && s[1..][m] == r[j];
        assert s[m + 1] == r[j];
      }
      Seqs.FilterHead(s, p);
      if p(s[0]) {
        SortedCons(key, s[0], r);
      }
    }
  }

  /** A head no smaller than any element of a sorted list keeps it sorted. */
  lemma SortedCons<T>(key: T -> (int, int), x: T, r: seq<T>)
    requires SortedBy(key, r)
    requires forall j :: 0 <= j < |r| ==> !KeyLess(key(r[j]), key(x))
    ensures SortedBy(key, [x] + r)
  {
    var out := [x] + r;
    forall i, j | 0 <= i < j < |out| ensures !KeyLess(key(out[j]), key(out[i])) {
      if i == 0 {
        assert out[j] == r[j - 1];
      } else {
        assert out[i] == r[i - 1] && out[j] == r[j - 1];
      }
    }
  }
}
