/** The stages of the task listing query: the conjunctive filter built from the query string,
    the newest-first sort, the skip/limit window and the page count. */
module TaskQuery {
  import opened Wrappers
  import opened Text
  import opened TaskModel

  /** The filter a listing runs: the mandatory owner, then each optional predicate that is active. */
  datatype Criteria = Criteria(
    owner: UserId,
    title: Option<string>,
    status: Option<Status>,
    priority: Option<Priority>)

  function Matches(t: Task, c: Criteria): (r: bool)
    ensures r ==> t.createdBy == c.owner
    ensures c.title.None? && c.status.None? && c.priority.None? ==> (r <==> t.createdBy == c.owner)
    ensures r && c.status.Some? ==> t.status == c.status.value
    ensures r && c.priority.Some? ==> t.priority == c.priority.value
  {
    && t.createdBy == c.owner
    && (c.title.Some? ==> ContainsIgnoreCase(t.title, c.title.value))
    && (c.status.Some? ==> t.status == c.status.value)
    && (c.priority.Some? ==> t.priority == c.priority.value)
  }

  /** The tasks of `s` that match `c`, in store order. */
  function Filter(s: seq<Task>, c: Criteria): (r: seq<Task>)
    ensures |r| <= |s|
    ensures forall t :: t in r <==> t in s && Matches(t, c)
  {
    if s == [] then []
    else
      var rest := Filter(s[1..], c);
      assert s == [s[0]] + s[1..];
      if Matches(s[0], c) then [s[0]] + rest else rest
  }

  /** Newest first: `createdAt` never increases along the sequence. */
  predicate NewestFirst(s: seq<Task>) {
    forall i, j :: 0 <= i < j < |s| ==> s[i].createdAt >= s[j].createdAt
  }

  /** Puts `t` into a newest-first sequence, ahead of every task created no later than it. */
  function Insert(t: Task, s: seq<Task>): (r: seq<Task>)
    requires NewestFirst(s)
    ensures NewestFirst(r)
    ensures |r| == |s| + 1
    ensures forall x :: x in r <==> x == t || x in s
    ensures r[0] == t || (s != [] && r[0] == s[0])
  {
    if s == [] || s[0].createdAt <= t.createdAt then
      var r := [t] + s;
      assert forall j :: 0 < j < |r| ==> r[j] == s[j - 1];
      r
    else
      var rest := Insert(t, s[1..]);
      assert s == [s[0]] + s[1..];
      var r := [s[0]] + rest;
      assert rest[0].createdAt <= s[0].createdAt;
      assert forall i, j :: 0 <= i < j < |r| ==> r[i].createdAt >= r[j].createdAt by {
        forall i, j | 0 <= i < j < |r|
          ensures r[i].createdAt >= r[j].createdAt
        {
          assert r[j] == rest[j - 1];
          if i > 0 {
            assert r[i] == rest[i - 1];
          } else if j > 1 {
            assert rest[0].createdAt >= rest[j - 1].createdAt;
          }
        }
      }
      r
  }

  /** The tasks of `s` sorted by creation time, newest first; ties keep their store order. */
  function SortNewest(s: seq<Task>): (r: seq<Task>)
    ensures NewestFirst(r)
    ensures forall t :: t in r <==> t in s
    ensures |r| == |s|
  {
    if s == [] then []
    else
      assert s == [s[0]] + s[1..];
      Insert(s[0], SortNewest(s[1..]))
  }

  /** Insertion adds exactly `t`: no task is lost or duplicated. */
  lemma {:induction false} InsertPermutes(t: Task, s: seq<Task>)
    requires NewestFirst(s)
    ensures multiset(Insert(t, s)) == multiset(s) + multiset{t}
  {
    if s != [] && s[0].createdAt > t.createdAt {
      InsertPermutes(t, s[1..]);
      assert s == [s[0]] + s[1..];
    }
  }

  /** Sorting is a permutation: every task keeps its multiplicity. */
  lemma {:induction false} SortPermutes(s: seq<Task>)
    ensures multiset(SortNewest(s)) == multiset(s)
  {
    if s != [] {
      var rest := SortNewest(s[1..]);
      SortPermutes(s[1..]);
      InsertPermutes(s[0], rest);
      ConsPermutes(s, rest, Insert(s[0], rest));
    }
  }

  /** Putting the head back into a permutation of the tail gives a permutation of the whole. */
  lemma ConsPermutes(s: seq<Task>, rest: seq<Task>, r: seq<Task>)
    requires s != [] && multiset(rest) == multiset(s[1..])
    requires multiset(r) == multiset(rest) + multiset{s[0]}
    ensures multiset(r) == multiset(s)
  {
    assert s == [s[0]] + s[1..];
  }

  /** No two tasks of `s` were created at the same time. */
  predicate DistinctTimes(s: seq<Task>) {
    forall i, j :: 0 <= i < j < |s| ==> s[i].createdAt != s[j].createdAt
  }

  /** With distinct creation times there is only one newest-first order of a set of tasks, so the
      tie order does not matter. */
  lemma {:induction false} NewestFirstUnique(a: seq<Task>, b: seq<Task>)
    requires NewestFirst(a) && NewestFirst(b) && DistinctTimes(a)
    requires multiset(a) == multiset(b)
    ensures a == b
  {
    if a == [] {
      assert |multiset(b)| == 0;
    } else {
      SameHead(a, b);
      var ta, tb := a[1..], b[1..];
      assert a == [a[0]] + ta;
      assert b == [b[0]] + tb;
      assert multiset(ta) == multiset(a) - multiset{a[0]};
      assert multiset(tb) == multiset(b) - multiset{b[0]};
      TailKeepsOrder(a);
      TailKeepsOrder(b);
      NewestFirstUnique(a[1..], b[1..]);
    }
  }

  /** Two newest-first orders of the same tasks, with distinct times, start with the same task. */
  lemma SameHead(a: seq<Task>, b: seq<Task>)
    requires NewestFirst(a) && NewestFirst(b) && DistinctTimes(a)
    requires multiset(a) == multiset(b) && a != []
    ensures b != [] && a[0] == b[0]
  {
    assert a[0] in multiset(b);
    var j :| 0 <= j < |b| && b[j] == a[0];
    assert b[0] in multiset(a);
    var i :| 0 <= i < |a| && a[i] == b[0];
    assert b[0].createdAt >= b[j].createdAt;
    assert a[0].createdAt >= a[i].createdAt;
  }

  /** Dropping the newest task keeps the order and the distinct times. */
  lemma TailKeepsOrder(s: seq<Task>)
    requires s != [] && NewestFirst(s)
    ensures NewestFirst(s[1..])
    ensures DistinctTimes(s) ==> DistinctTimes(s[1..])
  {
    forall i, j | 0 <= i < j < |s[1..]|
      ensures s[1..][i] == s[i + 1] && s[1..][j] == s[j + 1]
    {
    }
  }

  /** At most `limit` items starting at offset `skip`; an offset past the end gives nothing. */
  function Window(s: seq<Task>, skip: nat, limit: nat): (r: seq<Task>)
    ensures |r| == if skip >= |s| then 0 else if |s| - skip < limit then |s| - skip else limit
    ensures forall k :: 0 <= k < |r| ==> r[k] == s[skip + k]
    ensures forall t :: t in r ==> t in s
  {
    if skip >= |s| then []
    else if skip + limit <= |s| then s[skip..skip + limit]
    else s[skip..]
  }

  /** `ceil(total / limit)`: the fewest pages of `limit` items that hold `total` items. */
  function CeilDiv(total: nat, limit: nat): (pages: nat)
    requires limit >= 1
    ensures pages * limit >= total
    ensures pages == 0 || (pages - 1) * limit < total
  {
    (total + limit - 1) / limit
  }

  datatype Pagination = Pagination(total: nat, page: nat, limit: nat, pages: nat)
  datatype Listing = Listing(tasks: seq<Task>, pagination: Pagination)

  function Min(a: int, b: int): int { if a <= b then a else b }

  /** Where page `page` of `limit` items starts: `(page - 1) * limit`. */
  function Offset(page: int, limit: int): nat
    requires page >= 1 && limit >= 1
  {
    (page - 1) * limit
  }

  /** Page `page` of `limit` items out of `all`, with the summary of the whole sequence. */
  function Paginate(all: seq<Task>, page: int, limit: int): (r: Listing)
    requires page >= 1 && limit >= 1
    ensures r.pagination == Pagination(|all|, page, limit, CeilDiv(|all|, limit))
    ensures |r.tasks| <= limit
    ensures forall t :: t in r.tasks ==> t in all
    ensures Offset(page, limit) >= |all| ==> r.tasks == []
    ensures Offset(page, limit) < |all| ==> |r.tasks| == Min(limit, |all| - Offset(page, limit))
    ensures forall k :: 0 <= k < |r.tasks| ==> r.tasks[k] == all[Offset(page, limit) + k]
  {
    Listing(Window(all, Offset(page, limit), limit), Pagination(|all|, page, limit, CeilDiv(|all|, limit)))
  }

  /** A window of a newest-first sequence is itself newest first. */
  lemma WindowKeepsOrder(s: seq<Task>, skip: nat, limit: nat)
    requires NewestFirst(s)
    ensures NewestFirst(Window(s, skip, limit))
  {
    var r := Window(s, skip, limit);
    forall i, j | 0 <= i < j < |r|
      ensures r[i].createdAt >= r[j].createdAt
    {
      assert r[i] == s[skip + i] && r[j] == s[skip + j];
    }
  }

  /** A page of a newest-first sequence is itself newest first. */
  lemma PageKeepsOrder(all: seq<Task>, page: int, limit: int)
    requires page >= 1 && limit >= 1
    requires NewestFirst(all)
    ensures NewestFirst(Paginate(all, page, limit).tasks)
  {
    WindowKeepsOrder(all, Offset(page, limit), limit);
  }

  /** Filtering distributes over concatenation. */
  lemma {:induction false} FilterConcat(a: seq<Task>, b: seq<Task>, c: Criteria)
    ensures Filter(a + b, c) == Filter(a, c) + Filter(b, c)
  {
    if a == [] {
      assert a + b == b;
    } else {
      assert (a + b)[1..] == a[1..] + b;
      FilterConcat(a[1..], b, c);
    }
  }

  /** Filtering only drops tasks: each task occurs in the result at most as often as in the store. */
  lemma {:induction false} FilterIsSubMultiset(s: seq<Task>, c: Criteria)
    ensures multiset(Filter(s, c)) <= multiset(s)
  {
    if s != [] {
      FilterIsSubMultiset(s[1..], c);
      assert s == [s[0]] + s[1..];
    }
  }

  /** The tasks of one owner, in store order. */
  function OwnedBy(s: seq<Task>, owner: UserId): (r: seq<Task>)
    ensures forall t :: t in r <==> t in s && t.createdBy == owner
  {
    Filter(s, Criteria(owner, None, None, None))
  }

  /** Replacing a task of someone else by another task of someone else leaves `owner`'s tasks alone. */
  lemma {:induction false} OwnedByReplace(s: seq<Task>, i: nat, x: Task, owner: UserId)
    requires i < |s| && s[i].createdBy != owner && x.createdBy != owner
    ensures OwnedBy(s[i := x], owner) == OwnedBy(s, owner)
  {
    if i > 0 {
      assert s[i := x][1..] == s[1..][i - 1 := x];
      OwnedByReplace(s[1..], i - 1, x, owner);
    }
  }

  /** Removing a task of someone else leaves `owner`'s tasks alone. */
  lemma {:induction false} OwnedByRemove(s: seq<Task>, i: nat, owner: UserId)
    requires i < |s| && s[i].createdBy != owner
    ensures OwnedBy(s[..i] + s[i + 1..], owner) == OwnedBy(s, owner)
  {
    if i == 0 {
      assert s[..0] + s[1..] == s[1..];
    } else {
      assert (s[..i] + s[i + 1..])[1..] == s[1..][..i - 1] + s[1..][i..];
      assert (s[..i] + s[i + 1..])[0] == s[0];
      OwnedByRemove(s[1..], i - 1, owner);
    }
  }

  /** A filter for `owner` sees exactly what it would see if the store held only `owner`'s tasks. */
  lemma {:induction false} FilterSeesOnlyOwner(s: seq<Task>, c: Criteria)
    ensures Filter(s, c) == Filter(OwnedBy(s, c.owner), c)
  {
    if s != [] {
      FilterSeesOnlyOwner(s[1..], c);
    }
  }

  /** Without a status filter, the matches split exactly into the three status filters' matches. */
  lemma {:induction false} StatusSplit(s: seq<Task>, c: Criteria)
    requires c.status.None?
    ensures |Filter(s, c)| ==
      |Filter(s, c.(status := Some(Pending)))|
      + |Filter(s, c.(status := Some(InProgress)))|
      + |Filter(s, c.(status := Some(Completed)))|
  {
    if s != [] {
      StatusSplit(s[1..], c);
      var cp, ci, cc := c.(status := Some(Pending)), c.(status := Some(InProgress)), c.(status := Some(Completed));
      FilterStep(s, c);
      FilterStep(s, cp);
      FilterStep(s, ci);
      FilterStep(s, cc);
      var t := s[0];
      assert Matches(t, cp) == (Matches(t, c) && t.status == Pending);
      assert Matches(t, ci) == (Matches(t, c) && t.status == InProgress);
      assert Matches(t, cc) == (Matches(t, c) && t.status == Completed);
    }
  }

  /** How many tasks one filter step keeps from the head of the store. */
  lemma FilterStep(s: seq<Task>, c: Criteria)
    requires s != []
    ensures |Filter(s, c)| == (if Matches(s[0], c) then 1 else 0) + |Filter(s[1..], c)|
  {
  }

  /** Pages 1 to `n` of `limit` items each, concatenated. */
  function PagesUpTo(all: seq<Task>, limit: int, n: nat): seq<Task>
    requires limit >= 1
  {
    if n == 0 then [] else PagesUpTo(all, limit, n - 1) + Paginate(all, n, limit).tasks
  }

  /** The first `n` pages are a prefix of the sequence being paged: no task is skipped or repeated. */
  lemma {:induction false} PagesArePrefix(all: seq<Task>, limit: int, n: nat)
    requires limit >= 1
    ensures PagesUpTo(all, limit, n) == all[..Min(n * limit, |all|)]
  {
    if n > 0 {
      PagesArePrefix(all, limit, n - 1);
      var lo := Offset(n, limit);
      NextOffset(n, limit, lo);
      PageIsSlice(all, n, limit, lo);
      PrefixGrows(all, lo, limit, PagesUpTo(all, limit, n - 1), Paginate(all, n, limit).tasks);
    }
  }

  /** The prefix up to `lo`, followed by the page that starts at `lo`, is the prefix up to
      `lo + limit`. */
  lemma PrefixGrows(all: seq<Task>, lo: nat, limit: nat, prev: seq<Task>, page: seq<Task>)
    requires prev == all[..Min(lo, |all|)]
    requires lo >= |all| ==> page == []
    requires lo < |all| ==> page == all[lo..Min(lo + limit, |all|)]
    ensures prev + page == all[..Min(lo + limit, |all|)]
  {
    if lo < |all| {
      assert all[..lo] + all[lo..Min(lo + limit, |all|)] == all[..Min(lo + limit, |all|)];
    }
  }

  /** Page `n`, which starts at offset `lo`, is the slice of at most `limit` items from there. */
  lemma PageIsSlice(all: seq<Task>, n: int, limit: int, lo: int)
    requires n >= 1 && limit >= 1 && lo == Offset(n, limit)
    ensures lo >= |all| ==> Paginate(all, n, limit).tasks == []
    ensures lo < |all| ==> Paginate(all, n, limit).tasks == all[lo..Min(lo + limit, |all|)]
  {
    assert Paginate(all, n, limit).tasks == Window(all, lo, limit);
  }

  /** Page n + 1 starts where page n ends. */
  lemma NextOffset(n: int, limit: int, lo: int)
    requires lo == (n - 1) * limit
    ensures lo + limit == n * limit
  {
  }

  /** `CeilDiv(|all|, limit)` pages, concatenated, give back the whole sequence. */
  lemma AllPagesCoverAll(all: seq<Task>, limit: int)
    requires limit >= 1
    ensures PagesUpTo(all, limit, CeilDiv(|all|, limit)) == all
  {
    var n := CeilDiv(|all|, limit);
    PagesArePrefix(all, limit, n);
    assert Min(n * limit, |all|) == |all|;
  }

  /** A page has items exactly when its number is at most the page count. */
  lemma PageNonEmptyIff(all: seq<Task>, page: int, limit: int)
    requires page >= 1 && limit >= 1
    ensures Paginate(all, page, limit).tasks != [] <==> page <= CeilDiv(|all|, limit)
  {
    var pages := CeilDiv(|all|, limit);
    if page <= pages {
      assert (page - 1) * limit <= (pages - 1) * limit by {
        MulMonotone(page - 1, pages - 1, limit);
      }
    } else {
      assert (page - 1) * limit >= pages * limit by {
        MulMonotone(pages, page - 1, limit);
      }
    }
  }

  lemma MulMonotone(a: int, b: int, m: nat)
    requires a <= b
    ensures a * m <= b * m
  {
  }
}
