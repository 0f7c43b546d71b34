/** The in-memory task registry of `api/services/task_service.py`: a
    dictionary from task id to task record, updated in place. Task ids
    (`uuid4`) and clock readings (`datetime.now()`) are parameters. */
module Tasks {
  import opened Common

  datatype TaskStatus = Pending | Running | Completed | Failed

  /** The summary a finished crawl hands to `complete_task`. */
  type ResultData = map<string, string>

  /** One task record, with the keys `create_task` gives it. */
  datatype Task = Task(
    taskId: string,
    status: TaskStatus,
    createdAt: int,
    startedAt: Option<int>,
    completedAt: Option<int>,
    error: Option<string>,
    result: Option<ResultData>)

  /** The keyword arguments of one `update_task` call: `None` where the key
      is not given, `Some(v)` where it is set to `v` (which may itself be a
      null). `task_id` names the call's own parameter, so it cannot be
      among them. */
  datatype TaskUpdate = TaskUpdate(
    status: Option<TaskStatus>,
    createdAt: Option<int>,
    startedAt: Option<Option<int>>,
    completedAt: Option<Option<int>>,
    error: Option<Option<string>>,
    result: Option<Option<ResultData>>)

  const NoUpdate := TaskUpdate(None, None, None, None, None, None)

  function NewTask(taskId: string, now: int): Task {
    Task(taskId, Pending, now, None, None, None, None)
  }

  /** `record.update(kwargs)`: exactly the given keys take their new
      values, every other key keeps its old one. */
  function Updated(t: Task, u: TaskUpdate): (r: Task)
    ensures r.taskId == t.taskId
    ensures r.status == (if u.status.Some? then u.status.value else t.status)
    ensures r.createdAt == (if u.createdAt.Some? then u.createdAt.value else t.createdAt)
    ensures r.startedAt == (if u.startedAt.Some? then u.startedAt.value else t.startedAt)
    ensures r.completedAt == (if u.completedAt.Some? then u.completedAt.value else t.completedAt)
    ensures r.error == (if u.error.Some? then u.error.value else t.error)
    ensures r.result == (if u.result.Some? then u.result.value else t.result)
  {
    Task(
      t.taskId,
      u.status.GetOr(t.status),
      u.createdAt.GetOr(t.createdAt),
      u.startedAt.GetOr(t.startedAt),
      u.completedAt.GetOr(t.completedAt),
      u.error.GetOr(t.error),
      u.result.GetOr(t.result))
  }

  /** Two updates in a row: the later one's keys win, the rest come from the
      earlier one. */
  function Then(u: TaskUpdate, v: TaskUpdate): TaskUpdate {
    TaskUpdate(
      if v.status.Some? then v.status else u.status,
      if v.createdAt.Some? then v.createdAt else u.createdAt,
      if v.startedAt.Some? then v.startedAt else u.startedAt,
      if v.completedAt.Some? then v.completedAt else u.completedAt,
      if v.error.Some? then v.error else u.error,
      if v.result.Some? then v.result else u.result)
  }

  /** An update with no keys changes nothing, applying the same update twice
      is the same as once, and two updates compose into one. */
  lemma UpdatedLaws(t: Task, u: TaskUpdate, v: TaskUpdate)
    ensures Updated(t, NoUpdate) == t
    ensures Updated(Updated(t, u), u) == Updated(t, u)
    ensures Updated(Updated(t, u), v) == Updated(t, Then(u, v))
  {
  }

  /** The ordering key of `list_tasks`: newest first. */
  function NewestFirst(t: Task): int {
    -t.createdAt
  }

  /** The records of `ids`, in that order. */
  function Entries(ids: seq<string>, m: map<string, Task>): (r: seq<Task>)
    requires forall k :: 0 <= k < |ids| ==> ids[k] in m
    ensures |r| == |ids| && forall k :: 0 <= k < |ids| ==> r[k] == m[ids[k]]
  {
    if ids == [] then [] else Entries(ids[..|ids| - 1], m) + [m[ids[|ids| - 1]]]
  }

  /** `r` lists stored records only, each task at most once, newest first,
      and no stored record left out is newer than one listed. */
  predicate NewestListing(tasks: map<string, Task>, r: seq<Task>) {
    && (forall k :: 0 <= k < |r| ==> r[k].taskId in tasks && r[k] == tasks[r[k].taskId])
    && (forall j, k :: 0 <= j < k < |r| ==> r[j].taskId != r[k].taskId)
    && (forall j, k :: 0 <= j < k < |r| ==> r[j].createdAt >= r[k].createdAt)
    && (forall id, k :: id in tasks && tasks[id] !in r && 0 <= k < |r| ==> r[k].createdAt >= tasks[id].createdAt)
  }

  class TaskService {
    /** `self.tasks`. */
    var tasks: map<string, Task>
    /** The ids in dictionary insertion order, the order in which
        `self.tasks.values()` lists the records. */
    var order: seq<string>

    ghost predicate Valid()
      reads this
    {
      && (forall id :: id in tasks ==> tasks[id].taskId == id)
      && (forall k :: 0 <= k < |order| ==> order[k] in tasks)
      && (forall id :: id in tasks ==> id in order)
      && (forall j, k :: 0 <= j < k < |order| ==> order[j] != order[k])
    }

    constructor()
      ensures Valid() && tasks == map[] && order == []
    {
      tasks := map[];
      order := [];
    }

    /** `create_task`, with `taskId` standing for the fresh `uuid4`: one
        pending record with no start, end, error or result is stored under
        the id; every other record stays as it was. */
    method CreateTask(taskId: string, now: int) returns (id: string)
      requires Valid()
      modifies this
      ensures Valid() && id == taskId
      ensures tasks == old(tasks)[taskId := Task(taskId, Pending, now, None, None, None, None)]
      ensures order == if taskId in old(tasks) then old(order) else old(order) + [taskId]
    {
      if taskId !in tasks {
        order := order + [taskId];
      }
      tasks := tasks[taskId := NewTask(taskId, now)];
      id := taskId;
    }

    /** `get_task`: the stored record for a known id, nothing for an
        unknown one. */
    function GetTask(taskId: string): (r: Option<Task>)
      reads this
      requires Valid()
      ensures r.Some? <==> taskId in tasks
      ensures r.Some? ==> r.value == tasks[taskId] && r.value.taskId == taskId
    {
      if taskId in tasks then Some(tasks[taskId]) else None
    }

    /** `update_task`: an unknown id changes nothing; on a known id only
        the given keys of that one record change. */
    method UpdateTask(taskId: string, u: TaskUpdate)
      requires Valid()
      modifies this
      ensures Valid() && order == old(order)
      ensures taskId !in old(tasks) ==> tasks == old(tasks)
      ensures taskId in old(tasks) ==> tasks == old(tasks)[taskId := Updated(old(tasks)[taskId], u)]
    {
      if taskId in tasks {
        tasks := tasks[taskId := Updated(tasks[taskId], u)];
      }
    }

    /** `start_task`: status running and the start time set, whatever the
        status was. */
    method StartTask(taskId: string, now: int)
      requires Valid()
      modifies this
      ensures Valid() && order == old(order)
      ensures taskId !in old(tasks) ==> tasks == old(tasks)
      ensures taskId in old(tasks) ==>
        tasks == old(tasks)[taskId := old(tasks)[taskId].(status := Running, startedAt := Some(now))]
    {
      UpdateTask(taskId, NoUpdate.(status := Some(Running), startedAt := Some(Some(now))));
    }

    /** `complete_task`: status completed, end time and result set; the
        error is left as it was. */
    method CompleteTask(taskId: string, result: ResultData, now: int)
      requires Valid()
      modifies this
      ensures Valid() && order == old(order)
      ensures taskId !in old(tasks) ==> tasks == old(tasks)
      ensures taskId in old(tasks) ==>
        tasks == old(tasks)[taskId := old(tasks)[taskId].(status := Completed, completedAt := Some(now), result := Some(result))]
    {
      UpdateTask(taskId, NoUpdate.(status := Some(Completed), completedAt := Some(Some(now)), result := Some(Some(result))));
    }

    /** `fail_task`: status failed, end time and error set; the result is
        left as it was. */
    method FailTask(taskId: string, error: string, now: int)
      requires Valid()
      modifies this
      ensures Valid() && order == old(order)
      ensures taskId !in old(tasks) ==> tasks == old(tasks)
      ensures taskId in old(tasks) ==>
        tasks == old(tasks)[taskId := old(tasks)[taskId].(status := Failed, completedAt := Some(now), error := Some(error))]
    {
      UpdateTask(taskId, NoUpdate.(status := Some(Failed), completedAt := Some(Some(now)), error := Some(Some(error))));
    }

    /** `list_tasks(limit)`: stored records only, each at most once, newest
        first, `tasks[:limit]` of them, and no record left out is newer than
        one returned. */
    function ListTasks(limit: int): (r: seq<Task>)
      reads this
      requires Valid()
      ensures |r| == SliceLength(|tasks|, limit)
      ensures NewestListing(tasks, r)
    {
      var sorted := SortBy(Entries(order, tasks), NewestFirst);
      Listed(tasks, order, limit);
      sorted[..SliceLength(|tasks|, limit)]
    }
  }

  lemma EntriesDistinct(tasks: map<string, Task>, order: seq<string>)
    requires forall id :: id in tasks ==> tasks[id].taskId == id
    requires forall k :: 0 <= k < |order| ==> order[k] in tasks
    requires forall j, k :: 0 <= j < k < |order| ==> order[j] != order[k]
    ensures forall x :: multiset(Entries(order, tasks))[x] <= 1
  {
    var all := Entries(order, tasks);
    forall j, k | 0 <= j < k < |all| ensures all[j] != all[k] {
      assert all[j].taskId == order[j] && all[k].taskId == order[k];
    }
    DistinctCounts(all);
  }

  lemma OrderCoversKeys(tasks: map<string, Task>, order: seq<string>)
    requires forall k :: 0 <= k < |order| ==> order[k] in tasks
    requires forall id :: id in tasks ==> id in order
    requires forall j, k :: 0 <= j < k < |order| ==> order[j] != order[k]
    ensures |order| == |tasks|
  {
    DistinctCard(order);
    var elems := set x | x in order;
    forall id ensures id in elems <==> id in tasks.Keys {
      if id in order {
        var k :| 0 <= k < |order| && order[k] == id;
      }
    }
    assert elems == tasks.Keys;
  }

  /** What `ListTasks` relies on: sorting the records in insertion order
      gives every stored record exactly once. */
  lemma ListedFacts(tasks: map<string, Task>, order: seq<string>, sorted: seq<Task>)
    requires forall id :: id in tasks ==> tasks[id].taskId == id
    requires forall k :: 0 <= k < |order| ==> order[k] in tasks
    requires forall id :: id in tasks ==> id in order
    requires forall j, k :: 0 <= j < k < |order| ==> order[j] != order[k]
    requires sorted == SortBy(Entries(order, tasks), NewestFirst)
    ensures |sorted| == |tasks|
    ensures forall k :: 0 <= k < |sorted| ==> sorted[k].taskId in tasks && sorted[k] == tasks[sorted[k].taskId]
    ensures forall j, k :: 0 <= j < k < |sorted| ==> sorted[j] != sorted[k]
    ensures forall id :: id in tasks ==> tasks[id] in sorted
  {
    var all := Entries(order, tasks);
    OrderCoversKeys(tasks, order);
    EntriesDistinct(tasks, order);
    SortedDistinct(all, sorted);
    EntriesStored(tasks, order);
    SortedStored(tasks, all, sorted);
    SortedCovers(tasks, order, sorted);
  }

  lemma EntriesStored(tasks: map<string, Task>, order: seq<string>)
    requires forall id :: id in tasks ==> tasks[id].taskId == id
    requires forall k :: 0 <= k < |order| ==> order[k] in tasks
    ensures var all := Entries(order, tasks);
      forall k :: 0 <= k < |all| ==> all[k].taskId in tasks && all[k] == tasks[all[k].taskId]
  {
  }

  lemma SortedDistinct(all: seq<Task>, sorted: seq<Task>)
    requires forall x :: multiset(all)[x] <= 1
    requires multiset(sorted) == multiset(all)
    ensures forall j, k :: 0 <= j < k < |sorted| ==> sorted[j] != sorted[k]
  {
    NoDuplicates(sorted);
  }

  lemma SortedStored(tasks: map<string, Task>, all: seq<Task>, sorted: seq<Task>)
    requires forall k :: 0 <= k < |all| ==> all[k].taskId in tasks && all[k] == tasks[all[k].taskId]
    requires multiset(sorted) == multiset(all)
    ensures forall k :: 0 <= k < |sorted| ==> sorted[k].taskId in tasks && sorted[k] == tasks[sorted[k].taskId]
  {
    SameElements(all, sorted);
    forall k | 0 <= k < |sorted| ensures sorted[k].taskId in tasks && sorted[k] == tasks[sorted[k].taskId] {
      assert sorted[k] in all;
      var m :| 0 <= m < |all| && all[m] == sorted[k];
    }
  }

  lemma SortedCovers(tasks: map<string, Task>, order: seq<string>, sorted: seq<Task>)
    requires forall id :: id in tasks ==> id in order
    requires forall k :: 0 <= k < |order| ==> order[k] in tasks
    requires multiset(sorted) == multiset(Entries(order, tasks))
    ensures forall id :: id in tasks ==> tasks[id] in sorted
  {
    var all := Entries(order, tasks);
    SameElements(all, sorted);
    forall id | id in tasks ensures tasks[id] in sorted {
      var k :| 0 <= k < |order| && order[k] == id;
      assert all[k] == tasks[id];
    }
  }

  /** The first `n` of the sorted records are the newest `n`. */
  lemma ListedPrefix(tasks: map<string, Task>, sorted: seq<Task>, r: seq<Task>)
    requires |r| <= |sorted| && r == sorted[..|r|]
    requires SortedBy(sorted, NewestFirst)
    requires forall k :: 0 <= k < |sorted| ==> sorted[k].taskId in tasks && sorted[k] == tasks[sorted[k].taskId]
    requires forall j, k :: 0 <= j < k < |sorted| ==> sorted[j] != sorted[k]
    requires forall id :: id in tasks ==> tasks[id] in sorted
    ensures NewestListing(tasks, r)
  {
    forall k | 0 <= k < |r| ensures r[k].taskId in tasks && r[k] == tasks[r[k].taskId] {
      assert r[k] == sorted[k];
    }
    forall j, k | 0 <= j < k < |r| ensures r[j].taskId != r[k].taskId && r[j].createdAt >= r[k].createdAt {
      assert r[j] == sorted[j] && r[k] == sorted[k];
      assert NewestFirst(sorted[j]) <= NewestFirst(sorted[k]);
    }
    forall id, k | id in tasks && tasks[id] !in r && 0 <= k < |r| ensures r[k].createdAt >= tasks[id].createdAt {
      var m :| 0 <= m < |sorted| && sorted[m] == tasks[id];
      assert m >= |r|;
      assert r[k] == sorted[k];
      assert NewestFirst(sorted[k]) <= NewestFirst(sorted[m]);
    }
  }

  /** `ListTasks`'s result, its contract stated over the plain state. */
  lemma Listed(tasks: map<string, Task>, order: seq<string>, limit: int)
    requires forall id :: id in tasks ==> tasks[id].taskId == id
    requires forall k :: 0 <= k < |order| ==> order[k] in tasks
    requires forall id :: id in tasks ==> id in order
    requires forall j, k :: 0 <= j < k < |order| ==> order[j] != order[k]
    ensures |SortBy(Entries(order, tasks), NewestFirst)| == |tasks|
    ensures NewestListing(tasks, SortBy(Entries(order, tasks), NewestFirst)[..SliceLength(|tasks|, limit)])
  {
    var sorted := SortBy(Entries(order, tasks), NewestFirst);
    ListedFacts(tasks, order, sorted);
    ListedPrefix(tasks, sorted, sorted[..SliceLength(|tasks|, limit)]);
  }
}
