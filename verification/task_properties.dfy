/** Properties that relate several calls of the task service: isolation between owners, what the
    listing's filters and pages promise, and how mutations affect later reads. */
module TaskProperties {
  import opened Wrappers
  import opened Text
  import opened TaskModel
  import opened TaskQuery
  import opened TaskService

  /** Every listed task belongs to the caller and meets each active condition of the query. */
  lemma ListingMatchesQuery(s: Store, owner: UserId, q: Query)
    requires WellFormedQuery(q)
    ensures forall t :: t in GetTasks(s, owner, q).tasks ==> t in s && t.createdBy == owner
    ensures forall t :: t in GetTasks(s, owner, q).tasks && SearchText(q) != "" ==>
      ContainsIgnoreCase(t.title, SearchText(q))
    ensures forall t, x :: t in GetTasks(s, owner, q).tasks && q.status == Some(StatusName(x)) ==> t.status == x
    ensures forall t, x :: t in GetTasks(s, owner, q).tasks && q.priority == Some(PriorityName(x)) ==> t.priority == x
  {
    var c := BuildCriteria(owner, q);
    forall t | t in GetTasks(s, owner, q).tasks
      ensures t in s && Matches(t, c)
    {
    }
  }

  /** A listing page comes newest first. */
  lemma ListingNewestFirst(s: Store, owner: UserId, q: Query)
    requires WellFormedQuery(q)
    ensures NewestFirst(GetTasks(s, owner, q).tasks)
  {
    PageKeepsOrder(Matching(s, owner, q), PageNumber(q), LimitNumber(q));
  }

  /** No listing of one owner ever contains a task of another. */
  lemma ListingIsolation(s: Store, a: UserId, b: UserId, q: Query)
    requires WellFormedQuery(q) && a != b
    ensures forall t :: t in GetTasks(s, b, q).tasks ==> t.createdBy != a
  {
    ListingMatchesQuery(s, b, q);
  }

  /** A listing depends only on the caller's own tasks: other owners' tasks have no influence. */
  lemma ListingNonInterference(s: Store, owner: UserId, q: Query)
    requires WellFormedQuery(q)
    ensures GetTasks(s, owner, q) == GetTasks(OwnedBy(s, owner), owner, q)
  {
    FilterSeesOnlyOwner(s, BuildCriteria(owner, q));
    FilterSeesOnlyOwner(OwnedBy(s, owner), BuildCriteria(owner, q));
    OwnedByIdempotent(s, owner);
  }

  lemma {:induction false} OwnedByIdempotent(s: Store, owner: UserId)
    ensures OwnedBy(OwnedBy(s, owner), owner) == OwnedBy(s, owner)
  {
    if s != [] {
      OwnedByIdempotent(s[1..], owner);
      var c := Criteria(owner, None, None, None);
      if s[0].createdBy == owner {
        assert OwnedBy(s, owner) == [s[0]] + OwnedBy(s[1..], owner);
        assert ([s[0]] + OwnedBy(s[1..], owner))[1..] == OwnedBy(s[1..], owner);
      }
    }
  }

  /** A status outside the enumeration, the empty string included, filters nothing. */
  lemma InvalidStatusIgnored(s: Store, owner: UserId, q: Query, v: string)
    requires WellFormedQuery(q) && ParseStatus(v).None?
    ensures GetTasks(s, owner, q.(status := Some(v))) == GetTasks(s, owner, q.(status := None))
  {
    assert BuildCriteria(owner, q.(status := Some(v))) == BuildCriteria(owner, q.(status := None));
  }

  /** A priority outside the enumeration, the empty string included, filters nothing. */
  lemma InvalidPriorityIgnored(s: Store, owner: UserId, q: Query, v: string)
    requires WellFormedQuery(q) && ParsePriority(v).None?
    ensures GetTasks(s, owner, q.(priority := Some(v))) == GetTasks(s, owner, q.(priority := None))
  {
    assert BuildCriteria(owner, q.(priority := Some(v))) == BuildCriteria(owner, q.(priority := None));
  }

  /** An empty search is the same as no search. */
  lemma EmptySearchIgnored(s: Store, owner: UserId, q: Query)
    requires WellFormedQuery(q)
    ensures GetTasks(s, owner, q.(search := Some(""))) == GetTasks(s, owner, q.(search := None))
  {
    assert BuildCriteria(owner, q.(search := Some(""))) == BuildCriteria(owner, q.(search := None));
  }

  /** The total does not depend on which page is asked for, nor on its size. */
  lemma TotalIgnoresPaging(s: Store, owner: UserId, q: Query, page: int, limit: int)
    requires WellFormedQuery(q) && page >= 1 && limit >= 1
    ensures GetTasks(s, owner, q.(page := Some(page), limit := Some(limit))).pagination.total
         == GetTasks(s, owner, q).pagination.total
  {
    assert BuildCriteria(owner, q.(page := Some(page), limit := Some(limit))) == BuildCriteria(owner, q);
  }

  /** The three status filters partition the unfiltered total. */
  lemma StatusTotalsSum(s: Store, owner: UserId, q: Query)
    requires WellFormedQuery(q) && q.status.None?
    ensures GetTasks(s, owner, q).pagination.total ==
      GetTasks(s, owner, q.(status := Some("pending"))).pagination.total
      + GetTasks(s, owner, q.(status := Some("in-progress"))).pagination.total
      + GetTasks(s, owner, q.(status := Some("completed"))).pagination.total
  {
    var c := BuildCriteria(owner, q);
    assert BuildCriteria(owner, q.(status := Some("pending"))) == c.(status := Some(Pending));
    assert BuildCriteria(owner, q.(status := Some("in-progress"))) == c.(status := Some(InProgress));
    assert BuildCriteria(owner, q.(status := Some("completed"))) == c.(status := Some(Completed));
    StatusSplit(s, c);
  }

  /** Reading pages 1 to `pages` in turn returns every matching task exactly once, newest first. */
  lemma PagesReturnEveryMatch(s: Store, owner: UserId, q: Query)
    requires WellFormedQuery(q)
    ensures PagesUpTo(Matching(s, owner, q), LimitNumber(q), GetTasks(s, owner, q).pagination.pages)
         == Matching(s, owner, q)
    ensures multiset(Matching(s, owner, q)) == multiset(Filter(s, BuildCriteria(owner, q)))
    ensures forall k :: 1 <= k ==> GetTasks(s, owner, q.(page := Some(k))).tasks
                                   == Paginate(Matching(s, owner, q), k, LimitNumber(q)).tasks
  {
    AllPagesCoverAll(Matching(s, owner, q), LimitNumber(q));
    SortPermutes(Filter(s, BuildCriteria(owner, q)));
    forall k | 1 <= k
      ensures GetTasks(s, owner, q.(page := Some(k))).tasks == Paginate(Matching(s, owner, q), k, LimitNumber(q)).tasks
    {
      assert BuildCriteria(owner, q.(page := Some(k))) == BuildCriteria(owner, q);
    }
  }

  /** When the matching tasks were created at distinct times, any newest-first order the store
      might pick for them is the one the listing uses, so paging over separate requests returns
      each of them exactly once whatever that order is. */
  lemma AnyNewestFirstOrderIsMatching(s: Store, owner: UserId, q: Query, o: seq<Task>)
    requires NewestFirst(o) && DistinctTimes(o)
    requires multiset(o) == multiset(Filter(s, BuildCriteria(owner, q)))
    ensures o == Matching(s, owner, q)
  {
    SortPermutes(Filter(s, BuildCriteria(owner, q)));
    NewestFirstUnique(o, Matching(s, owner, q));
  }

  /** A page has tasks exactly when its number does not exceed the page count; a page past the
      end is empty rather than an error. */
  lemma PageNonEmptyIffInRange(s: Store, owner: UserId, q: Query)
    requires WellFormedQuery(q)
    ensures GetTasks(s, owner, q).tasks != [] <==> PageNumber(q) <= GetTasks(s, owner, q).pagination.pages
  {
    PageNonEmptyIff(Matching(s, owner, q), PageNumber(q), LimitNumber(q));
  }

  /** Fifteen matching tasks in pages of ten: ten, then five, then nothing, and two pages. */
  lemma FifteenTasksInPagesOfTen(s: Store, owner: UserId, q: Query)
    requires WellFormedQuery(q) && q.limit == Some(10) && |Filter(s, BuildCriteria(owner, q))| == 15
    ensures |GetTasks(s, owner, q.(page := Some(1))).tasks| == 10
    ensures |GetTasks(s, owner, q.(page := Some(2))).tasks| == 5
    ensures GetTasks(s, owner, q.(page := Some(3))).tasks == []
    ensures GetTasks(s, owner, q).pagination.pages == 2
  {
    assert BuildCriteria(owner, q.(page := Some(1))) == BuildCriteria(owner, q);
    assert BuildCriteria(owner, q.(page := Some(2))) == BuildCriteria(owner, q);
    assert BuildCriteria(owner, q.(page := Some(3))) == BuildCriteria(owner, q);
  }

  /** Reading by id sees only the caller's tasks: someone else's task is as absent as a missing one. */
  lemma {:induction false} GetByIdNonInterference(s: Store, id: TaskId, owner: UserId)
    ensures GetTaskById(s, id, owner) == GetTaskById(OwnedBy(s, owner), id, owner)
  {
    if s != [] {
      GetByIdNonInterference(s[1..], id, owner);
      var o := OwnedBy(s, owner);
      if s[0].createdBy == owner {
        assert o == [s[0]] + OwnedBy(s[1..], owner);
        if s[0].id != id {
          GetByIdTail(o, id, owner);
        }
      }
      if !(s[0].id == id && s[0].createdBy == owner) {
        GetByIdTail(s, id, owner);
      }
    }
  }

  /** When the first task is not the one asked for, the search continues in the rest. */
  lemma GetByIdTail(s: Store, id: TaskId, owner: UserId)
    requires s != [] && !(s[0].id == id && s[0].createdBy == owner)
    ensures GetTaskById(s, id, owner) == GetTaskById(s[1..], id, owner)
  {
    match FindOwned(s[1..], id, owner)
    case None =>
    case Some(k) => assert s[k + 1] == s[1..][k];
  }

  /** With unique ids, a task of owner `a` is reported to any other owner `b` exactly as a
      missing task is, by every operation on a single task. */
  lemma ForeignTaskLooksMissing(s: Store, id: TaskId, a: UserId, b: UserId, f: TaskFields)
    requires Valid(s) && Owns(s, id, a) && a != b
    ensures GetTaskById(s, id, b) == Failure(TaskNotFound)
    ensures UpdateTask(s, id, b, f) == Failure(TaskNotFound)
    ensures DeleteTask(s, id, b) == Failure(TaskNotFound)
    ensures Message(GetTaskById(s, id, b).error) == "Task not found"
  {
    var i :| 0 <= i < |s| && s[i].id == id && s[i].createdBy == a;
    assert !Owns(s, id, b) by {
      forall j | 0 <= j < |s| && s[j].id == id
        ensures s[j].createdBy != b
      {
        assert j == i;
      }
    }
  }

  /** A created task can be read back by its owner, field for field, and by nobody else. */
  lemma CreateThenGet(s: Store, data: TaskData, owner: UserId, other: UserId, id: TaskId, now: int)
    requires forall k :: 0 <= k < |s| ==> s[k].id != id
    requires data.fields.title.Some? && other != owner
    ensures GetTaskById(CreateTask(s, data, owner, id, now).store, id, owner)
         == Success(CreateTask(s, data, owner, id, now).task)
    ensures GetTaskById(CreateTask(s, data, owner, id, now).store, id, other) == Failure(TaskNotFound)
  {
    var m := CreateTask(s, data, owner, id, now);
    var r := FindOwned(m.store, id, owner);
    assert r == Some(|s|) by {
      assert m.store[|s|].id == id;
      forall j | 0 <= j < |s|
        ensures m.store[j].id != id
      {
        assert m.store[j] == s[j];
      }
    }
  }

  /** After an update, the owner reads back exactly the updated task. */
  lemma UpdateThenGet(s: Store, id: TaskId, owner: UserId, f: TaskFields)
    requires Valid(s) && UpdateTask(s, id, owner, f).Success?
    ensures GetTaskById(UpdateTask(s, id, owner, f).value.store, id, owner)
         == Success(UpdateTask(s, id, owner, f).value.task)
  {
    var m := UpdateTask(s, id, owner, f).value;
    var i :| 0 <= i < |s| && s[i].id == id && s[i].createdBy == owner
      && m.task == Apply(s[i], f) && m.store == s[i := m.task];
    var r := FindOwned(m.store, id, owner);
    assert r == Some(i) by {
      assert m.store[i].id == id && m.store[i].createdBy == owner;
      forall j | 0 <= j < |m.store| && j != i
        ensures m.store[j].id != id
      {
        assert m.store[j] == s[j];
      }
    }
  }

  /** A second delete of the same id fails: the first removed the only task with that id. */
  lemma DeleteTwiceFails(s: Store, id: TaskId, owner: UserId)
    requires Valid(s) && DeleteTask(s, id, owner).Success?
    ensures DeleteTask(DeleteTask(s, id, owner).value.store, id, owner) == Failure(TaskNotFound)
    ensures GetTaskById(DeleteTask(s, id, owner).value.store, id, owner) == Failure(TaskNotFound)
  {
    var m := DeleteTask(s, id, owner).value;
    var i :| 0 <= i < |s| && s[i].id == id && s[i].createdBy == owner
      && m.task == s[i] && m.store == s[..i] + s[i + 1..];
    forall j | 0 <= j < |m.store|
      ensures m.store[j].id != id
    {
      if j < i {
        assert m.store[j] == s[j];
      } else {
        assert m.store[j] == s[j + 1];
      }
    }
  }

  /** Creating a task leaves every other owner's tasks as they were. */
  lemma CreateFrame(s: Store, data: TaskData, owner: UserId, other: UserId, id: TaskId, now: int)
    requires forall k :: 0 <= k < |s| ==> s[k].id != id
    requires data.fields.title.Some? && other != owner
    ensures OwnedBy(CreateTask(s, data, owner, id, now).store, other) == OwnedBy(s, other)
  {
    var m := CreateTask(s, data, owner, id, now);
    assert m.store == s + [m.task];
    FilterConcat(s, [m.task], Criteria(other, None, None, None));
  }

  /** An update leaves every other owner's tasks as they were. */
  lemma UpdateFrame(s: Store, id: TaskId, owner: UserId, other: UserId, f: TaskFields)
    requires UpdateTask(s, id, owner, f).Success? && other != owner
    ensures OwnedBy(UpdateTask(s, id, owner, f).value.store, other) == OwnedBy(s, other)
  {
    var m := UpdateTask(s, id, owner, f).value;
    var i :| 0 <= i < |s| && s[i].id == id && s[i].createdBy == owner
      && m.task == Apply(s[i], f) && m.store == s[i := m.task];
    OwnedByReplace(s, i, m.task, other);
  }

  /** A delete leaves every other owner's tasks as they were. */
  lemma DeleteFrame(s: Store, id: TaskId, owner: UserId, other: UserId)
    requires DeleteTask(s, id, owner).Success? && other != owner
    ensures OwnedBy(DeleteTask(s, id, owner).value.store, other) == OwnedBy(s, other)
  {
    var m := DeleteTask(s, id, owner).value;
    var i :| 0 <= i < |s| && s[i].id == id && s[i].createdBy == owner
      && m.task == s[i] && m.store == s[..i] + s[i + 1..];
    OwnedByRemove(s, i, other);
  }
}
