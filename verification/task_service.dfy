/** The owner-scoped task store: create, list, read, update and delete, each a function from the
    store (a sequence of tasks in insertion order) to a result and, for mutations, a new store.
    The generated id and the creation time are parameters. */
module TaskService {
  import opened Wrappers
  import opened Text
  import opened TaskModel
  import opened TaskQuery

  type Store = seq<Task>

  /** Task ids are unique in the store. */
  predicate Valid(s: Store) {
    forall i, j :: 0 <= i < j < |s| ==> s[i].id != s[j].id
  }

  /** Some task in the store has this id and belongs to this owner. */
  predicate Owns(s: Store, id: TaskId, owner: UserId) {
    exists i :: 0 <= i < |s| && s[i].id == id && s[i].createdBy == owner
  }

  /** The only error of the task service; missing and someone else's task look the same. */
  datatype TaskError = TaskNotFound

  function Message(e: TaskError): string {
    "Task not found"
  }

  /** A mutation's outcome: the new store and the task it created, updated or deleted. */
  datatype Mutation = Mutation(store: Store, task: Task)

  /** A create body: the schema fields and whatever `createdBy` the client put in it. */
  datatype TaskData = TaskData(fields: TaskFields, createdBy: Option<UserId>)

  /** Adds a new task with a fresh id; the owner is the caller, never the body's `createdBy`.
      The title is present because the create schema runs before the service. */
  function CreateTask(s: Store, data: TaskData, owner: UserId, id: TaskId, now: int): (r: Mutation)
    requires forall k :: 0 <= k < |s| ==> s[k].id != id
    requires data.fields.title.Some?
    ensures r.task.createdBy == owner && r.task.id == id && r.task.createdAt == now
    ensures Some(r.task.title) == data.fields.title && r.task.description == data.fields.description
    ensures r.task.status == data.fields.status.GetOr(Pending)
    ensures r.task.priority == data.fields.priority.GetOr(Medium)
    ensures r.task.dueDate == data.fields.dueDate.GetOr(NoDueDate)
    ensures |r.store| == |s| + 1 && r.store[..|s|] == s && r.store[|s|] == r.task
    ensures Valid(s) ==> Valid(r.store)
  {
    var t := NewTask(id, data.fields, owner, now);
    Mutation(s + [t], t)
  }

  /** The index of the first task with this id and owner, as `findOne` returns it. */
  function FindOwned(s: Store, id: TaskId, owner: UserId): (r: Option<nat>)
    ensures r.Some? ==> r.value < |s| && s[r.value].id == id && s[r.value].createdBy == owner
    ensures r.Some? ==> forall j :: 0 <= j < r.value ==> !(s[j].id == id && s[j].createdBy == owner)
    ensures r.None? <==> !Owns(s, id, owner)
  {
    if s == [] then None
    else if s[0].id == id && s[0].createdBy == owner then Some(0)
    else
      match FindOwned(s[1..], id, owner)
      case None =>
        assert !Owns(s, id, owner) by {
          forall i | 0 < i < |s|
            ensures !(s[i].id == id && s[i].createdBy == owner)
          {
            assert s[1..][i - 1] == s[i];
          }
        }
        None
      case Some(k) => Some(k + 1)
  }

  /** Reads one task by the pair (id, owner). */
  function GetTaskById(s: Store, id: TaskId, owner: UserId): (r: Result<Task, TaskError>)
    ensures r.Success? <==> Owns(s, id, owner)
    ensures r.Success? ==> r.value in s && r.value.id == id && r.value.createdBy == owner
    ensures r.Failure? ==> r.error == TaskNotFound
  {
    match FindOwned(s, id, owner)
    case None => Failure(TaskNotFound)
    case Some(i) => Success(s[i])
  }

  /** Find-and-modify on the pair (id, owner): the supplied fields of that one task change,
      every other task stays where and what it was, and the updated task is returned. */
  function UpdateTask(s: Store, id: TaskId, owner: UserId, f: TaskFields): (r: Result<Mutation, TaskError>)
    ensures r.Success? <==> Owns(s, id, owner)
    ensures r.Failure? ==> r.error == TaskNotFound
    ensures r.Success? ==>
      exists i :: 0 <= i < |s| && s[i].id == id && s[i].createdBy == owner
        && r.value.task == Apply(s[i], f)
        && r.value.store == s[i := r.value.task]
    ensures r.Success? ==> (Valid(s) ==> Valid(r.value.store))
  {
    match FindOwned(s, id, owner)
    case None => Failure(TaskNotFound)
    case Some(i) =>
      var t := Apply(s[i], f);
      Success(Mutation(s[i := t], t))
  }

  /** Find-and-delete on the pair (id, owner): exactly that one task leaves the store, the
      others keep their order, and the deleted task is returned. */
  function DeleteTask(s: Store, id: TaskId, owner: UserId): (r: Result<Mutation, TaskError>)
    ensures r.Success? <==> Owns(s, id, owner)
    ensures r.Failure? ==> r.error == TaskNotFound
    ensures r.Success? ==>
      exists i :: 0 <= i < |s| && s[i].id == id && s[i].createdBy == owner
        && r.value.task == s[i]
        && r.value.store == s[..i] + s[i + 1..]
    ensures r.Success? ==> multiset(r.value.store) == multiset(s) - multiset{r.value.task}
    ensures r.Success? ==> (Valid(s) ==> Valid(r.value.store))
  {
    match FindOwned(s, id, owner)
    case None => Failure(TaskNotFound)
    case Some(i) =>
      var rest := RemoveAt(s, i);
      Success(Mutation(rest, s[i]))
  }

  /** The store without its `i`-th task. */
  function RemoveAt(s: Store, i: nat): (r: Store)
    requires i < |s|
    ensures r == s[..i] + s[i + 1..]
    ensures multiset(r) == multiset(s) - multiset{s[i]}
    ensures Valid(s) ==> Valid(r)
  {
    assert s == s[..i] + [s[i]] + s[i + 1..];
    var r := s[..i] + s[i + 1..];
    assert Valid(s) ==> Valid(r) by {
      if Valid(s) {
        forall a, b | 0 <= a < b < |r|
          ensures r[a].id != r[b].id
        {
          var a' := if a < i then a else a + 1;
          var b' := if b < i then b else b + 1;
          assert r[a] == s[a'] && r[b] == s[b'];
        }
      }
    }
    r
  }

  /** The query string of a listing; absent parameters take the defaults "", 1 and 10. */
  datatype Query = Query(
    search: Option<string>,
    status: Option<string>,
    priority: Option<string>,
    page: Option<int>,
    limit: Option<int>)

  function SearchText(q: Query): string { q.search.GetOr("") }
  function PageNumber(q: Query): int { q.page.GetOr(1) }
  function LimitNumber(q: Query): int { q.limit.GetOr(10) }

  /** Positive page and limit, and a search string with no regex metacharacters. */
  predicate WellFormedQuery(q: Query) {
    PageNumber(q) >= 1 && LimitNumber(q) >= 1 && IsLiteralPattern(SearchText(q))
  }

  /** The filter a query asks for: a title filter only for a non-empty search, a status or
      priority filter only for a value that names one. */
  function BuildCriteria(owner: UserId, q: Query): (c: Criteria)
    ensures c.owner == owner
    ensures c.title.Some? <==> SearchText(q) != ""
    ensures c.title.Some? ==> c.title.value == SearchText(q)
    ensures forall x :: c.status == Some(x) <==> q.status == Some(StatusName(x))
    ensures forall x :: c.priority == Some(x) <==> q.priority == Some(PriorityName(x))
  {
    Criteria(
      owner,
      if SearchText(q) != "" then Some(SearchText(q)) else None,
      if q.status.Some? then ParseStatus(q.status.value) else None,
      if q.priority.Some? then ParsePriority(q.priority.value) else None)
  }

  /** The offset of a page: `(page - 1) * limit`. */
  function Skip(q: Query): nat
    requires WellFormedQuery(q)
  {
    Offset(PageNumber(q), LimitNumber(q))
  }

  /** The matching tasks of the caller, newest first, before paging. */
  function Matching(s: Store, owner: UserId, q: Query): (r: seq<Task>)
    ensures |r| == |Filter(s, BuildCriteria(owner, q))|
    ensures forall t :: t in r <==> t in s && Matches(t, BuildCriteria(owner, q))
  {
    SortNewest(Filter(s, BuildCriteria(owner, q)))
  }

  /** Lists the caller's tasks: filter, sort newest first, cut out one page, and count. */
  function GetTasks(s: Store, owner: UserId, q: Query): (r: Listing)
    requires WellFormedQuery(q)
    ensures r.pagination.page == PageNumber(q) && r.pagination.limit == LimitNumber(q)
    ensures |r.tasks| <= LimitNumber(q)
    ensures forall t :: t in r.tasks ==> t in Filter(s, BuildCriteria(owner, q))
    ensures r.pagination.total == |Filter(s, BuildCriteria(owner, q))|
    ensures r.pagination.pages == CeilDiv(r.pagination.total, LimitNumber(q))
    ensures Skip(q) >= r.pagination.total ==> r.tasks == []
    ensures Skip(q) < r.pagination.total ==> |r.tasks| == Min(LimitNumber(q), r.pagination.total - Skip(q))
  {
    var all := Matching(s, owner, q);
    assert |all| == |Filter(s, BuildCriteria(owner, q))|;
    Paginate(all, PageNumber(q), LimitNumber(q))
  }

}
