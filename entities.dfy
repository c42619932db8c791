/** The two entities of the application (types/task.ts) and the rows the
    remote store keeps for them (types/supabase.ts), with the field-for-field
    transforms between the two shapes. Timestamps are milliseconds since the
    epoch; text is `string`. */
module Entities {
  import opened Common

  datatype TaskStatus = Pending | InProgress | Completed
  datatype TaskPriority = Low | Medium | High

  /** The wire spelling of a status ('pending' | 'in_progress' | 'completed'). */
  function StatusName(s: TaskStatus): (name: string)
    ensures name != ""
  {
    match s
    case Pending => "pending"
    case InProgress => "in_progress"
    case Completed => "completed"
  }

  /** The wire spelling of a priority ('low' | 'medium' | 'high'). */
  function PriorityName(p: TaskPriority): (name: string)
    ensures name != ""
  {
    match p
    case Low => "low"
    case Medium => "medium"
    case High => "high"
  }

  /** Distinct statuses have distinct names, so filtering by name is
      filtering by status. */
  lemma StatusNameInjective(a: TaskStatus, b: TaskStatus)
    requires StatusName(a) == StatusName(b)
    ensures a == b
  {
    assert StatusName(a)[0] == StatusName(b)[0];
  }

  lemma PriorityNameInjective(a: TaskPriority, b: TaskPriority)
    requires PriorityName(a) == PriorityName(b)
    ensures a == b
  {
    assert PriorityName(a)[0] == PriorityName(b)[0];
  }

  datatype Task = Task(
    id: string,
    title: string,
    description: Option<string>,
    status: TaskStatus,
    priority: TaskPriority,
    categoryId: Option<string>,
    dueDate: Option<int>,
    createdAt: int,
    updatedAt: int,
    order: int)

  datatype Category = Category(id: string, name: string, color: string, createdAt: int)

  /** The ids of the tasks, position by position. */
  function TaskIds(tasks: seq<Task>): (ids: seq<string>)
    ensures |ids| == |tasks|
  {
    seq(|tasks|, i requires 0 <= i < |tasks| => tasks[i].id)
  }

  /** The ids of the categories, position by position. The same projection
      as `TaskIds` on the other record type: the two types share no common
      supertype to write it once over. */
  function CategoryIds(categories: seq<Category>): (ids: seq<string>)
    ensures |ids| == |categories|
  {
    seq(|categories|, i requires 0 <= i < |categories| => categories[i].id)
  }

  /** A row of the remote `tasks` table: the task fields in snake_case plus
      the owning user. */
  datatype TaskRow = TaskRow(
    id: string,
    userId: string,
    title: string,
    description: Option<string>,
    status: TaskStatus,
    priority: TaskPriority,
    categoryId: Option<string>,
    dueDate: Option<int>,
    createdAt: int,
    updatedAt: int,
    order: int)

  /** A row of the remote `categories` table. */
  datatype CategoryRow = CategoryRow(id: string, userId: string, name: string, color: string, createdAt: int)

  /** The transform applied to fetched task rows: `user_id` is dropped. */
  function TaskFromRow(row: TaskRow): Task {
    Task(row.id, row.title, row.description, row.status, row.priority,
         row.categoryId, row.dueDate, row.createdAt, row.updatedAt, row.order)
  }

  /** The row inserted for a new task on behalf of `userId`; fetching it back
      yields the task unchanged. */
  function TaskToRow(t: Task, userId: string): (row: TaskRow)
    ensures TaskFromRow(row) == t && row.userId == userId
  {
    TaskRow(t.id, userId, t.title, t.description, t.status, t.priority,
            t.categoryId, t.dueDate, t.createdAt, t.updatedAt, t.order)
  }

  /** The other direction: a fetched row, re-inserted for its own owner, is
      the row itself (the transforms differ only in `user_id`). */
  lemma TaskRowRoundTrip(row: TaskRow)
    ensures TaskToRow(TaskFromRow(row), row.userId) == row
  {
  }

  function CategoryFromRow(row: CategoryRow): Category {
    Category(row.id, row.name, row.color, row.createdAt)
  }

  function CategoryToRow(c: Category, userId: string): (row: CategoryRow)
    ensures CategoryFromRow(row) == c && row.userId == userId
  {
    CategoryRow(c.id, userId, c.name, c.color, c.createdAt)
  }

  lemma CategoryRowRoundTrip(row: CategoryRow)
    ensures CategoryToRow(CategoryFromRow(row), row.userId) == row
  {
  }

  /** `tasksData.map(...)` of the full refresh: every fetched row becomes the
      task that, inserted for the row's owner, gives back that row. */
  function TasksFromRows(rows: seq<TaskRow>): (ts: seq<Task>)
    ensures |ts| == |rows|
    ensures forall i :: 0 <= i < |ts| ==> TaskToRow(ts[i], rows[i].userId) == rows[i]
  {
    seq(|rows|, i requires 0 <= i < |rows| => TaskFromRow(rows[i]))
  }

  function CategoriesFromRows(rows: seq<CategoryRow>): (cs: seq<Category>)
    ensures |cs| == |rows|
    ensures forall i :: 0 <= i < |cs| ==> CategoryToRow(cs[i], rows[i].userId) == rows[i]
  {
    seq(|rows|, i requires 0 <= i < |rows| => CategoryFromRow(rows[i]))
  }
}
