/** lib/utils.ts: drag-and-drop reordering (copy, remove, insert, renumber),
    the overdue / due-today predicates, and the local-storage read with its
    fallback to a default. "Now" is a parameter (milliseconds). */
module Utils {
  import opened Common
  import opened Entities

  /** `result.splice(i, 1)` on a copy: the sequence without its element at `i`. */
  function Removed<T>(s: seq<T>, i: nat): (r: seq<T>)
    requires i < |s|
    ensures |r| == |s| - 1
    ensures forall k :: 0 <= k < |r| ==> r[k] == if k < i then s[k] else s[k + 1]
  {
    s[..i] + s[i + 1..]
  }

  /** `result.splice(j, 0, x)` on a copy: `x` inserted so that it sits at `j`. */
  function Inserted<T>(s: seq<T>, j: nat, x: T): (r: seq<T>)
    requires j <= |s|
    ensures |r| == |s| + 1
    ensures forall k :: 0 <= k < |r| ==> r[k] == if k < j then s[k] else if k == j then x else s[k - 1]
  {
    s[..j] + [x] + s[j..]
  }

  /** The element at `from` taken out and put back at `to`. */
  function Moved<T>(s: seq<T>, from: nat, to: nat): (r: seq<T>)
    requires from < |s| && to < |s|
  {
    Inserted(Removed(s, from), to, s[from])
  }

  /** Moving is a permutation that puts the moved element at `to` and keeps
      every other element in its relative order. */
  lemma MovedIsPermutation<T>(s: seq<T>, from: nat, to: nat)
    requires from < |s| && to < |s|
    ensures |Moved(s, from, to)| == |s|
    ensures multiset(Moved(s, from, to)) == multiset(s)
    ensures Moved(s, from, to)[to] == s[from]
    ensures Removed(Moved(s, from, to), to) == Removed(s, from)
  {
    var rest := Removed(s, from);
    assert s == s[..from] + [s[from]] + s[from + 1..];
    assert multiset(s) == multiset(rest) + multiset{s[from]};
    var m := Moved(s, from, to);
    assert m == rest[..to] + [s[from]] + rest[to..];
    assert Removed(m, to) == rest;
  }

  /** The tasks with their `order` set to their index (`result.map(...)`). */
  function Renumbered(s: seq<Task>): (r: seq<Task>)
    ensures |r| == |s|
  {
    seq(|s|, i requires 0 <= i < |s| => s[i].(order := i))
  }

  /** The tasks with the `order` field blanked: two tasks equal here differ
      at most in `order`. */
  function WithoutOrder(s: seq<Task>): (r: seq<Task>)
    ensures |r| == |s|
  {
    seq(|s|, i requires 0 <= i < |s| => s[i].(order := 0))
  }

  /** Where each element of a moved sequence comes from. */
  lemma MovedAt<T>(s: seq<T>, from: nat, to: nat, k: nat)
    requires from < |s| && to < |s| && k < |s|
    ensures |Moved(s, from, to)| == |s|
    ensures Moved(s, from, to)[k] ==
      if k == to then s[from]
      else var j := if k < to then k else k - 1; if j < from then s[j] else s[j + 1]
  {
  }

  lemma WithoutOrderOfMoved(s: seq<Task>, from: nat, to: nat)
    requires from < |s| && to < |s|
    ensures WithoutOrder(Moved(s, from, to)) == Moved(WithoutOrder(s), from, to)
  {
    var w := WithoutOrder(s);
    var a, b := WithoutOrder(Moved(s, from, to)), Moved(w, from, to);
    MovedAt(w, from, to, 0);
    assert |a| == |b|;
    forall k | 0 <= k < |a| ensures a[k] == b[k] {
      MovedAt(s, from, to, k);
      MovedAt(w, from, to, k);
    }
  }

  /** `reorderTasks(tasks, startIndex, endIndex)`: the task at `startIndex`
      moves to `endIndex`, every `order` becomes the task's index, nothing
      else about any task changes, and no task is lost or duplicated. */
  function ReorderTasks(tasks: seq<Task>, startIndex: nat, endIndex: nat): (r: seq<Task>)
    requires startIndex < |tasks| && endIndex < |tasks|
    ensures |r| == |tasks|
    ensures forall i :: 0 <= i < |r| ==> r[i].order == i
    ensures r[endIndex] == tasks[startIndex].(order := endIndex)
    ensures multiset(WithoutOrder(r)) == multiset(WithoutOrder(tasks))
    ensures Removed(WithoutOrder(r), endIndex) == Removed(WithoutOrder(tasks), startIndex)
  {
    var moved := Moved(tasks, startIndex, endIndex);
    MovedIsPermutation(tasks, startIndex, endIndex);
    MovedIsPermutation(WithoutOrder(tasks), startIndex, endIndex);
    WithoutOrderOfMoved(tasks, startIndex, endIndex);
    assert WithoutOrder(Renumbered(moved)) == WithoutOrder(moved);
    Renumbered(moved)
  }

  /** `isOverdue`: a task with a due date that has passed and is not completed. */
  predicate IsOverdue(task: Task, now: int)
    ensures IsOverdue(task, now) <==> task.status != Completed && task.dueDate.Some? && task.dueDate.value < now
  {
    match task.dueDate
    case None => false
    case Some(due) => due < now && task.status != Completed
  }

  /** `isDueToday`: a task due on the calendar day of `now` that is not completed. */
  predicate IsDueToday(task: Task, now: int)
    ensures IsDueToday(task, now) <==>
              task.status != Completed && task.dueDate.Some? &&
              DayStart(DayOf(now)) <= task.dueDate.value < DayStart(DayOf(now)) + MsPerDay
  {
    match task.dueDate
    case None => false
    case Some(due) =>
      DayOfWithin(due, DayOf(now));
      DayOf(due) == DayOf(now) && task.status != Completed
  }

  /** For an open task with a due date the two predicates split time into
      three parts: due on an earlier day (overdue, not due today), due today
      (due today, and overdue exactly when the moment has passed), due on a
      later day (neither). */
  lemma {:induction false} DueDateClassification(task: Task, now: int)
    requires task.dueDate.Some? && task.status != Completed
    ensures DayOf(task.dueDate.value) < DayOf(now) ==> IsOverdue(task, now) && !IsDueToday(task, now)
    ensures DayOf(task.dueDate.value) == DayOf(now) ==> IsDueToday(task, now) && (IsOverdue(task, now) <==> task.dueDate.value < now)
    ensures DayOf(task.dueDate.value) > DayOf(now) ==> !IsOverdue(task, now) && !IsDueToday(task, now)
  {
    var due := task.dueDate.value;
    if now <= due {
      DayOfMonotone(now, due);
    } else {
      DayOfMonotone(due, now);
    }
  }

  /** A completed task, or one without a due date, is neither overdue nor due today. */
  lemma ClosedOrUndatedIsNeither(task: Task, now: int)
    requires task.dueDate.None? || task.status == Completed
    ensures !IsOverdue(task, now) && !IsDueToday(task, now)
  {
  }

  /** `getLocalStorageItem(key, defaultValue)`. `storage` is None when there
      is no browser window; `parse` stands for `JSON.parse`, None when it
      throws. */
  function GetLocalStorageItem<T>(storage: Option<map<string, string>>, key: string, defaultValue: T,
                                  parse: string -> Option<T>): (r: T)
    ensures r == defaultValue || (storage.Some? && key in storage.value && parse(storage.value[key]) == Some(r))
  {
    if storage.None? then defaultValue
    else if key !in storage.value then defaultValue
    else parse(storage.value[key]).GetOr(defaultValue)
  }

  /** `setLocalStorageItem(key, value)`; `serialize` stands for `JSON.stringify`. */
  function SetLocalStorageItem<T>(storage: Option<map<string, string>>, key: string, value: T,
                                  serialize: T -> string): (r: Option<map<string, string>>)
    ensures r.Some? <==> storage.Some?
    ensures r.Some? ==> key in r.value && r.value[key] == serialize(value)
    ensures r.Some? ==> forall k :: k != key ==> (k in r.value <==> k in storage.value)
    ensures r.Some? ==> forall k :: k != key && k in storage.value ==> r.value[k] == storage.value[k]
  {
    if storage.None? then None else Some(storage.value[key := serialize(value)])
  }

  /** Nothing stored, or nothing readable, yields the default. */
  lemma GetFallsBack<T>(storage: Option<map<string, string>>, key: string, defaultValue: T,
                        parse: string -> Option<T>)
    requires storage.None? || key !in storage.value || parse(storage.value[key]).None?
    ensures GetLocalStorageItem(storage, key, defaultValue, parse) == defaultValue
  {
  }

  /** Reading back what was written returns it, when parsing undoes
      serialising; writing one key leaves every other key's reading as it was. */
  lemma GetAfterSet<T>(storage: Option<map<string, string>>, key: string, value: T, other: string,
                       defaultValue: T, parse: string -> Option<T>, serialize: T -> string)
    requires storage.Some? && parse(serialize(value)) == Some(value)
    ensures GetLocalStorageItem(SetLocalStorageItem(storage, key, value, serialize), key, defaultValue, parse) == value
    ensures other != key ==>
      GetLocalStorageItem(SetLocalStorageItem(storage, key, value, serialize), other, defaultValue, parse)
      == GetLocalStorageItem(storage, other, defaultValue, parse)
  {
  }
}
