/** providers/tasks-provider.tsx: the client-side task and category store.
    Every operation computes the new collection, commits it to the in-memory
    state and to local storage, and only then (when a user is signed in)
    issues its request to the remote store. The remote answer is a parameter;
    a failure is reported in the returned outcome and never undoes the local
    commit. Fresh ids and "now" timestamps are parameters as well. */
module TasksProvider {
  import opened Common
  import opened Entities
  import Utils

  /** What became of the remote half of an operation: no request was sent
      (nobody signed in, or nothing to do), it succeeded, or it failed and a
      toast reported it. */
  datatype SyncOutcome = NotSent | Synced | SyncFailed

  /** The outcome of one remote request issued on behalf of `user`. */
  function Outcome(user: Option<string>, remoteOk: bool): (o: SyncOutcome)
    ensures o == NotSent <==> user.None?
    ensures o == SyncFailed <==> user.Some? && !remoteOk
  {
    if user.None? then NotSent else if remoteOk then Synced else SyncFailed
  }

  /** The fields `updateTask` writes back to the remote row. */
  datatype TaskChanges = TaskChanges(
    title: string,
    description: Option<string>,
    status: TaskStatus,
    priority: TaskPriority,
    categoryId: Option<string>,
    dueDate: Option<int>,
    updatedAt: int,
    order: int)

  function ChangesOf(t: Task): TaskChanges {
    TaskChanges(t.title, t.description, t.status, t.priority, t.categoryId, t.dueDate, t.updatedAt, t.order)
  }

  /** The requests the store sends to the remote store, in the order sent. */
  datatype RemoteCall =
    | SelectTasks(userId: string)
    | SelectCategories(userId: string)
    | InsertTask(row: TaskRow)
    | UpdateTask(id: string, changes: TaskChanges)
    | DeleteTask(id: string)
    | InsertCategory(categoryRow: CategoryRow)
    | UpdateCategory(categoryId: string, name: string, color: string)
    | ClearCategoryOnTasks(clearedId: string)
    | DeleteCategory(id: string)
    | SetOrder(orderedId: string, order: int)

  /** The calls `updateTask` / `updateCategory` can make: either the record
      was found and updated, or 'not found' was thrown. */
  datatype UpdateResult<T> = Updated(value: T, outcome: SyncOutcome) | NotFound

  /** What `createTask` receives: a task without id, timestamps and order. */
  datatype TaskInput = TaskInput(
    title: string,
    description: Option<string>,
    status: TaskStatus,
    priority: TaskPriority,
    categoryId: Option<string>,
    dueDate: Option<int>)

  /** What `createCategory` receives. */
  datatype CategoryInput = CategoryInput(name: string, color: string)

  /** `Partial<Task>`: a field is replaced when present. */
  datatype TaskPatch = TaskPatch(
    id: Option<string>,
    title: Option<string>,
    description: Option<Option<string>>,
    status: Option<TaskStatus>,
    priority: Option<TaskPriority>,
    categoryId: Option<Option<string>>,
    dueDate: Option<Option<int>>,
    createdAt: Option<int>,
    updatedAt: Option<int>,
    order: Option<int>)

  /** `Partial<Category>`. */
  datatype CategoryPatch = CategoryPatch(
    id: Option<string>,
    name: Option<string>,
    color: Option<string>,
    createdAt: Option<int>)

  /** The task `createTask` builds: both timestamps are `now` and the order
      is the number of tasks already present. */
  function NewTask(input: TaskInput, id: string, now: int, order: int): (r: Task)
    ensures r.id == id && r.order == order && r.createdAt == now && r.updatedAt == now
    ensures TaskInput(r.title, r.description, r.status, r.priority, r.categoryId, r.dueDate) == input
  {
    Task(id, input.title, input.description, input.status, input.priority,
         input.categoryId, input.dueDate, now, now, order)
  }

  function NewCategory(input: CategoryInput, id: string, now: int): Category {
    Category(id, input.name, input.color, now)
  }

  /** `{ ...task, ...patch, updatedAt: now }`. */
  function MergeTask(t: Task, p: TaskPatch, now: int): (r: Task)
    ensures r.updatedAt == now
    ensures p.id.None? ==> r.id == t.id
    ensures p.createdAt.None? ==> r.createdAt == t.createdAt
    ensures p.order.None? ==> r.order == t.order
    ensures p.status.Some? ==> r.status == p.status.value
  {
    Task(p.id.GetOr(t.id), p.title.GetOr(t.title), p.description.GetOr(t.description),
         p.status.GetOr(t.status), p.priority.GetOr(t.priority), p.categoryId.GetOr(t.categoryId),
         p.dueDate.GetOr(t.dueDate), p.createdAt.GetOr(t.createdAt), now, p.order.GetOr(t.order))
  }

  /** `{ ...category, ...patch }`. */
  function MergeCategory(c: Category, p: CategoryPatch): (r: Category)
    ensures p == CategoryPatch(None, None, None, None) ==> r == c
    ensures p.id.None? ==> r.id == c.id
    ensures p.name.Some? ==> r.name == p.name.value
    ensures p.color.Some? ==> r.color == p.color.value
  {
    Category(p.id.GetOr(c.id), p.name.GetOr(c.name), p.color.GetOr(c.color), p.createdAt.GetOr(c.createdAt))
  }

  /** An empty patch changes nothing but the update time. */
  lemma MergeEmptyTaskPatch(t: Task, now: int)
    ensures MergeTask(t, TaskPatch(None, None, None, None, None, None, None, None, None, None), now)
            == t.(updatedAt := now)
  {
  }

  /** The merged task takes each field from the patch when present and from
      the old task otherwise, and always carries the fresh update time. */
  lemma MergeTaskFields(t: Task, p: TaskPatch, now: int)
    ensures MergeTask(t, p, now).updatedAt == now
    ensures p.status.Some? ==> MergeTask(t, p, now).status == p.status.value
    ensures p.status.None? ==> MergeTask(t, p, now).status == t.status
    ensures p.order.None? && p.id.None? && p.createdAt.None? ==>
              MergeTask(t, p, now).order == t.order && MergeTask(t, p, now).id == t.id
              && MergeTask(t, p, now).createdAt == t.createdAt
  {
  }

  /** `tasks.filter(task => task.id !== id)`. */
  function TasksWithout(tasks: seq<Task>, id: string): seq<Task> {
    Filter(tasks, (t: Task) => t.id != id)
  }

  function CategoriesWithout(categories: seq<Category>, id: string): seq<Category> {
    Filter(categories, (c: Category) => c.id != id)
  }

  /** `deleteTask` removes every task with the id, keeps every other task
      exactly as it was (its `order` included) and in the same relative
      order. */
  lemma {:induction false} TasksWithoutSpec(tasks: seq<Task>, id: string)
    ensures forall i :: 0 <= i < |TasksWithout(tasks, id)| ==> TasksWithout(tasks, id)[i].id != id
    ensures forall i :: 0 <= i < |tasks| && tasks[i].id != id ==> tasks[i] in TasksWithout(tasks, id)
    ensures IsSubsequence(TasksWithout(tasks, id), tasks)
    ensures id !in TaskIds(tasks) ==> TasksWithout(tasks, id) == tasks
  {
    FilterIsSubsequence(tasks, (t: Task) => t.id != id);
    if id !in TaskIds(tasks) {
      forall i | 0 <= i < |tasks| ensures tasks[i].id != id {
        assert TaskIds(tasks)[i] == tasks[i].id;
      }
      FilterAll(tasks, (t: Task) => t.id != id);
    }
  }

  /** The cascade of `deleteCategory`: `categoryId` becomes null on the tasks
      that referenced the category. */
  function ClearCategory(tasks: seq<Task>, id: string): (r: seq<Task>)
    ensures |r| == |tasks|
  {
    seq(|tasks|, i requires 0 <= i < |tasks| =>
      if tasks[i].categoryId == Some(id) then tasks[i].(categoryId := None) else tasks[i])
  }

  /** Exactly the tasks that referenced the category lose the reference;
      no other field of any task, and no other task, changes; afterwards no
      task references it, and repeating the cascade changes nothing. */
  lemma ClearCategorySpec(tasks: seq<Task>, id: string)
    ensures forall i :: 0 <= i < |tasks| ==>
              ClearCategory(tasks, id)[i].(categoryId := tasks[i].categoryId) == tasks[i]
    ensures forall i :: 0 <= i < |tasks| ==>
              (ClearCategory(tasks, id)[i] != tasks[i] <==> tasks[i].categoryId == Some(id))
    ensures forall i :: 0 <= i < |tasks| ==> ClearCategory(tasks, id)[i].categoryId != Some(id)
    ensures ClearCategory(ClearCategory(tasks, id), id) == ClearCategory(tasks, id)
  {
  }

  /** Every task's `order` is its index: the dense order that `reorderTasks`
      establishes. */
  ghost predicate Dense(tasks: seq<Task>) {
    forall i :: 0 <= i < |tasks| ==> tasks[i].order == i
  }

  /** Appending with `order = tasks.length` keeps a dense collection dense. */
  lemma CreateKeepsDense(tasks: seq<Task>, input: TaskInput, id: string, now: int)
    requires Dense(tasks)
    ensures Dense(tasks + [NewTask(input, id, now, |tasks|)])
  {
  }

  /** Delete does not renumber, so a delete followed by a create can leave
      two tasks with the same `order`. */
  lemma DeleteThenCreateDuplicatesOrder(a: Task, b: Task, input: TaskInput, id: string, now: int)
    requires a.id != b.id && a.order == 0 && b.order == 1
    ensures var left := TasksWithout([a, b], a.id);
            var after := left + [NewTask(input, id, now, |left|)];
            |after| == 2 && after[0].order == after[1].order == 1
  {
    assert TasksWithout([a, b], a.id) == [b];
  }

  /** JavaScript's `splice(start, ...)` start position on an array of length
      `len`: a negative start counts from the end, a large one is the end. */
  function SpliceStart(start: int, len: nat): (p: nat)
    ensures p <= len
    ensures 0 <= start <= len ==> p == start
  {
    if start < 0 then (if len + start < 0 then 0 else len + start)
    else if start > len then len
    else start
  }

  /** Whether `reorderTasks(taskId, newOrder)` does anything: the task exists
      and its stored `order` differs from `newOrder`. */
  predicate ReorderApplies(tasks: seq<Task>, taskId: string, newOrder: int) {
    var i := IndexOf(TaskIds(tasks), taskId);
    i != -1 && tasks[i].order != newOrder
  }

  /** The task list after `reorderTasks(taskId, newOrder)`: the task is taken
      from its array position and inserted at position `newOrder`, then every
      task is renumbered. */
  function Reordered(tasks: seq<Task>, taskId: string, newOrder: int): (r: seq<Task>)
    ensures |r| == |tasks|
  {
    if !ReorderApplies(tasks, taskId, newOrder) then tasks
    else
      var i := IndexOf(TaskIds(tasks), taskId);
      Utils.ReorderTasks(tasks, i, SpliceStart(newOrder, |tasks| - 1))
  }

  /** No-op cases: no task has the id, or the first task with it (the one
      `findIndex` finds) already has `order == newOrder`, whatever its
      position in the array. */
  lemma ReorderedNoOp(tasks: seq<Task>, taskId: string, newOrder: int)
    requires taskId !in TaskIds(tasks) || tasks[IndexOf(TaskIds(tasks), taskId)].order == newOrder
    ensures Reordered(tasks, taskId, newOrder) == tasks
  {
  }

  /** When it applies and `newOrder` is a position of the list, the result
      is a permutation of the tasks (up to `order`), the moved task sits at
      `newOrder`, and every task's `order` is its index. */
  lemma {:induction false} ReorderedMoves(tasks: seq<Task>, taskId: string, newOrder: int)
    requires ReorderApplies(tasks, taskId, newOrder) && 0 <= newOrder < |tasks|
    ensures Dense(Reordered(tasks, taskId, newOrder))
    ensures Reordered(tasks, taskId, newOrder)[newOrder].id == taskId
    ensures multiset(Utils.WithoutOrder(Reordered(tasks, taskId, newOrder))) == multiset(Utils.WithoutOrder(tasks))
  {
    var i := IndexOf(TaskIds(tasks), taskId);
    assert TaskIds(tasks)[i] == tasks[i].id;
    assert SpliceStart(newOrder, |tasks| - 1) == newOrder;
  }

  /** The order writes of the reorder loop, one per task in list order. */
  function OrderUpdates(tasks: seq<Task>): seq<RemoteCall> {
    seq(|tasks|, k requires 0 <= k < |tasks| => SetOrder(tasks[k].id, tasks[k].order))
  }

  /** Some write among the first `n` fails. */
  predicate FailsWithin(failAt: Option<nat>, n: nat) {
    failAt.Some? && failAt.value < n
  }

  /** How many of `n` writes are attempted: up to and including the first
      failing one. */
  function WritesAttempted(failAt: Option<nat>, n: nat): (k: nat)
    ensures k <= n
    ensures FailsWithin(failAt, n) <==> k < n || (failAt.Some? && failAt.value == n - 1)
  {
    if FailsWithin(failAt, n) then failAt.value + 1 else n
  }

  /** The remote loop of `reorderTasks`: one order write per task, in list
      order, until the first write that fails (`failAt`) throws. */
  method WriteOrders(tasks: seq<Task>, failAt: Option<nat>) returns (calls: seq<RemoteCall>, failed: bool)
    ensures calls == OrderUpdates(tasks)[..WritesAttempted(failAt, |tasks|)]
    ensures failed == FailsWithin(failAt, |tasks|)
  {
    calls := [];
    failed := false;
    var k := 0;
    while k < |tasks| && !failed
      invariant 0 <= k <= |tasks|
      invariant failed <==> failAt.Some? && failAt.value < k
      invariant failed ==> k == failAt.value + 1
      invariant calls == OrderUpdates(tasks)[..k]
    {
      assert OrderUpdates(tasks)[..k + 1] == OrderUpdates(tasks)[..k] + [SetOrder(tasks[k].id, tasks[k].order)];
      calls := calls + [SetOrder(tasks[k].id, tasks[k].order)];
      failed := failAt == Some(k);
      k := k + 1;
    }
  }

  class TaskStore {
    var tasks: seq<Task>
    var categories: seq<Category>
    /** The signed-in user's id, if any. */
    var user: Option<string>
    var loading: bool
    /** Local storage: the saved task and category arrays (None when absent
        or unreadable) and the time of the last full refresh. */
    var storedTasks: Option<seq<Task>>
    var storedCategories: Option<seq<Category>>
    var lastSync: Option<int>
    /** Every request sent to the remote store so far. */
    var sent: seq<RemoteCall>

    constructor (storedTasks: Option<seq<Task>>, storedCategories: Option<seq<Category>>, lastSync: Option<int>)
      ensures tasks == [] && categories == [] && user.None? && loading && sent == []
      ensures this.storedTasks == storedTasks && this.storedCategories == storedCategories
      ensures this.lastSync == lastSync
    {
      tasks, categories, user, loading := [], [], None, true;
      this.storedTasks, this.storedCategories, this.lastSync := storedTasks, storedCategories, lastSync;
      sent := [];
    }

    /** The effect that runs when the signed-in user changes: reload both
        collections from local storage (empty when absent or unreadable);
        without a user, loading ends here, otherwise a full refresh follows. */
    method UserChanged(u: Option<string>)
      modifies this
      ensures user == u
      ensures tasks == storedTasks.GetOr([]) && categories == storedCategories.GetOr([])
      ensures loading == (u.Some? && old(loading))
      ensures storedTasks == old(storedTasks) && storedCategories == old(storedCategories)
      ensures lastSync == old(lastSync) && sent == old(sent)
    {
      user := u;
      tasks := storedTasks.GetOr([]);
      categories := storedCategories.GetOr([]);
      if u.None? {
        loading := false;
      }
    }

    /** `fetchTasksAndCategories`: select the user's tasks, then (only if
        that succeeded) their categories; `taskRows` / `categoryRows` are the
        answers, None for an error. Both collections and local storage are
        overwritten only when both selects succeeded; otherwise local state is
        left exactly as it was. */
    method Refresh(taskRows: Option<seq<TaskRow>>, categoryRows: Option<seq<CategoryRow>>, now: int)
      returns (outcome: SyncOutcome)
      modifies this
      ensures user == old(user)
      ensures old(user).None? ==>
        outcome == NotSent && tasks == old(tasks) && categories == old(categories)
        && loading == old(loading) && storedTasks == old(storedTasks)
        && storedCategories == old(storedCategories) && lastSync == old(lastSync) && sent == old(sent)
      ensures old(user).Some? ==>
        var ok := taskRows.Some? && categoryRows.Some?;
        && outcome == (if ok then Synced else SyncFailed)
        && !loading
        && sent == old(sent) + [SelectTasks(user.value)]
                  + (if taskRows.Some? then [SelectCategories(user.value)] else [])
        && tasks == (if ok then TasksFromRows(taskRows.value) else old(tasks))
        && categories == (if ok then CategoriesFromRows(categoryRows.value) else old(categories))
        && storedTasks == (if ok then Some(tasks) else old(storedTasks))
        && storedCategories == (if ok then Some(categories) else old(storedCategories))
        && lastSync == (if ok then Some(now) else old(lastSync))
    {
      if user.None? {
        return NotSent;
      }
      loading := true;
      sent := sent + [SelectTasks(user.value)];
      if taskRows.None? {
        loading := false;
        return SyncFailed;
      }
      sent := sent + [SelectCategories(user.value)];
      if categoryRows.None? {
        loading := false;
        return SyncFailed;
      }
      tasks := TasksFromRows(taskRows.value);
      categories := CategoriesFromRows(categoryRows.value);
      storedTasks := Some(tasks);
      storedCategories := Some(categories);
      lastSync := Some(now);
      loading := false;
      outcome := Synced;
    }

    /** `createTask`: append the new task with `order` = the previous count,
        commit locally, then insert its row remotely. */
    method CreateTask(input: TaskInput, id: string, now: int, remoteOk: bool)
      returns (task: Task, outcome: SyncOutcome)
      modifies this
      ensures task == NewTask(input, id, now, |old(tasks)|)
      ensures task.createdAt == task.updatedAt
      ensures tasks == old(tasks) + [task] && storedTasks == Some(tasks)
      ensures categories == old(categories) && storedCategories == old(storedCategories)
      ensures user == old(user) && loading == old(loading) && lastSync == old(lastSync)
      ensures sent == old(sent) + (if user.Some? then [InsertTask(TaskToRow(task, user.value))] else [])
      ensures outcome == Outcome(user, remoteOk)
    {
      task := NewTask(input, id, now, |tasks|);
      tasks := tasks + [task];
      storedTasks := Some(tasks);
      if user.Some? {
        sent := sent + [InsertTask(TaskToRow(task, user.value))];
      }
      outcome := Outcome(user, remoteOk);
    }

    /** `updateTask`: 'not found' changes nothing; otherwise only the slot of
        the first task with the id changes, to the patch merged over it with a
        fresh `updatedAt`. */
    method UpdateTask(id: string, patch: TaskPatch, now: int, remoteOk: bool)
      returns (result: UpdateResult<Task>)
      modifies this
      ensures id !in TaskIds(old(tasks)) ==>
        result == NotFound && tasks == old(tasks) && storedTasks == old(storedTasks) && sent == old(sent)
      ensures id in TaskIds(old(tasks)) ==>
        var i := IndexOf(TaskIds(old(tasks)), id);
        var updated := MergeTask(old(tasks)[i], patch, now);
        && result == Updated(updated, Outcome(user, remoteOk))
        && tasks == old(tasks)[i := updated] && storedTasks == Some(tasks)
        && sent == old(sent) + (if user.Some? then [RemoteCall.UpdateTask(id, ChangesOf(updated))] else [])
      ensures categories == old(categories) && storedCategories == old(storedCategories)
      ensures user == old(user) && loading == old(loading) && lastSync == old(lastSync)
    {
      var i := IndexOf(TaskIds(tasks), id);
      if i == -1 {
        return NotFound;
      }
      var updated := MergeTask(tasks[i], patch, now);
      tasks := tasks[i := updated];
      storedTasks := Some(tasks);
      if user.Some? {
        sent := sent + [RemoteCall.UpdateTask(id, ChangesOf(updated))];
      }
      result := Updated(updated, Outcome(user, remoteOk));
    }

    /** `deleteTask`: drop every task with the id; nothing is renumbered. */
    method DeleteTask(id: string, remoteOk: bool) returns (outcome: SyncOutcome)
      modifies this
      ensures tasks == TasksWithout(old(tasks), id) && storedTasks == Some(tasks)
      ensures categories == old(categories) && storedCategories == old(storedCategories)
      ensures user == old(user) && loading == old(loading) && lastSync == old(lastSync)
      ensures sent == old(sent) + (if user.Some? then [RemoteCall.DeleteTask(id)] else [])
      ensures outcome == Outcome(user, remoteOk)
    {
      tasks := TasksWithout(tasks, id);
      storedTasks := Some(tasks);
      if user.Some? {
        sent := sent + [RemoteCall.DeleteTask(id)];
      }
      outcome := Outcome(user, remoteOk);
    }

    /** `createCategory`: append the new category and insert its row. */
    method CreateCategory(input: CategoryInput, id: string, now: int, remoteOk: bool)
      returns (category: Category, outcome: SyncOutcome)
      modifies this
      ensures category == NewCategory(input, id, now)
      ensures categories == old(categories) + [category] && storedCategories == Some(categories)
      ensures tasks == old(tasks) && storedTasks == old(storedTasks)
      ensures user == old(user) && loading == old(loading) && lastSync == old(lastSync)
      ensures sent == old(sent) + (if user.Some? then [InsertCategory(CategoryToRow(category, user.value))] else [])
      ensures outcome == Outcome(user, remoteOk)
    {
      category := NewCategory(input, id, now);
      categories := categories + [category];
      storedCategories := Some(categories);
      if user.Some? {
        sent := sent + [InsertCategory(CategoryToRow(category, user.value))];
      }
      outcome := Outcome(user, remoteOk);
    }

    /** `updateCategory`: like `updateTask`, without a timestamp; the remote
        update writes `name` and `color`. */
    method UpdateCategory(id: string, patch: CategoryPatch, remoteOk: bool)
      returns (result: UpdateResult<Category>)
      modifies this
      ensures id !in CategoryIds(old(categories)) ==>
        result == NotFound && categories == old(categories)
        && storedCategories == old(storedCategories) && sent == old(sent)
      ensures id in CategoryIds(old(categories)) ==>
        var i := IndexOf(CategoryIds(old(categories)), id);
        var updated := MergeCategory(old(categories)[i], patch);
        && result == Updated(updated, Outcome(user, remoteOk))
        && categories == old(categories)[i := updated] && storedCategories == Some(categories)
        && sent == old(sent) + (if user.Some? then [RemoteCall.UpdateCategory(id, updated.name, updated.color)] else [])
      ensures tasks == old(tasks) && storedTasks == old(storedTasks)
      ensures user == old(user) && loading == old(loading) && lastSync == old(lastSync)
    {
      var i := IndexOf(CategoryIds(categories), id);
      if i == -1 {
        return NotFound;
      }
      var updated := MergeCategory(categories[i], patch);
      categories := categories[i := updated];
      storedCategories := Some(categories);
      if user.Some? {
        sent := sent + [RemoteCall.UpdateCategory(id, updated.name, updated.color)];
      }
      result := Updated(updated, Outcome(user, remoteOk));
    }

    /** `deleteCategory`: drop the category and null `categoryId` on the
        tasks that referenced it, both locally; remotely, clear the references
        and then, only if that succeeded, delete the category row. */
    method DeleteCategory(id: string, clearOk: bool, deleteOk: bool) returns (outcome: SyncOutcome)
      modifies this
      ensures categories == CategoriesWithout(old(categories), id) && storedCategories == Some(categories)
      ensures tasks == ClearCategory(old(tasks), id) && storedTasks == Some(tasks)
      ensures user == old(user) && loading == old(loading) && lastSync == old(lastSync)
      ensures sent == old(sent) +
        (if user.None? then []
         else [ClearCategoryOnTasks(id)] + (if clearOk then [RemoteCall.DeleteCategory(id)] else []))
      ensures outcome == Outcome(user, clearOk && deleteOk)
    {
      categories := CategoriesWithout(categories, id);
      storedCategories := Some(categories);
      tasks := ClearCategory(tasks, id);
      storedTasks := Some(tasks);
      if user.Some? {
        sent := sent + [ClearCategoryOnTasks(id)];
        if clearOk {
          sent := sent + [RemoteCall.DeleteCategory(id)];
        }
      }
      outcome := Outcome(user, clearOk && deleteOk);
    }

    /** `reorderTasks(taskId, newOrder)`: nothing happens when the id is
        unknown or its stored `order` already equals `newOrder`; otherwise the
        reordered list is committed and, for a signed-in user, the new order
        of every task is written back one task at a time, stopping at the
        first failure. `failAt` is the position of the write that fails, if
        any. */
    method ReorderTasks(taskId: string, newOrder: int, failAt: Option<nat>) returns (outcome: SyncOutcome)
      modifies this
      ensures tasks == Reordered(old(tasks), taskId, newOrder)
      ensures storedTasks == if ReorderApplies(old(tasks), taskId, newOrder) then Some(tasks) else old(storedTasks)
      ensures outcome == if ReorderApplies(old(tasks), taskId, newOrder) then Outcome(user, !FailsWithin(failAt, |tasks|)) else NotSent
      ensures sent == old(sent) +
        (if ReorderApplies(old(tasks), taskId, newOrder) && user.Some? then OrderUpdates(tasks)[..WritesAttempted(failAt, |tasks|)] else [])
      ensures categories == old(categories) && storedCategories == old(storedCategories)
      ensures user == old(user) && loading == old(loading) && lastSync == old(lastSync)
    {
      var i := IndexOf(TaskIds(tasks), taskId);
      if i == -1 || tasks[i].order == newOrder {
        return NotSent;
      }
      tasks := Reordered(tasks, taskId, newOrder);
      storedTasks := Some(tasks);
      if user.None? {
        return NotSent;
      }
      var calls, failed := WriteOrders(tasks, failAt);
      sent := sent + calls;
      outcome := if failed then SyncFailed else Synced;
    }
  }
}
