/** components/dashboard/task-calendar.tsx: the due-date month calendar,
    its per-day queries, the day colouring, the seven-day preview and the
    completion toggle. Days are day numbers (`DayOf`). */
module TaskCalendar {
  import opened Common
  import opened Entities
  import opened TasksProvider

  /** The filter of `getTasksForDay`: a due date on day `d`, any status. */
  function DueOn(d: int): Task -> bool {
    (t: Task) => t.dueDate.Some? && DayOf(t.dueDate.value) == d
  }

  /** The filter of `getTaskCountForDay`: also not completed. */
  function OpenDueOn(d: int): Task -> bool {
    (t: Task) => t.dueDate.Some? && DayOf(t.dueDate.value) == d && t.status != Completed
  }

  function IsOpen(t: Task): bool {
    t.status != Completed
  }

  /** `getTasksForDay`. */
  function TasksForDay(tasks: seq<Task>, d: int): (r: seq<Task>)
    ensures |r| <= |tasks|
    ensures forall i :: 0 <= i < |r| ==> r[i] in tasks && r[i].dueDate.Some? && DayOf(r[i].dueDate.value) == d
  {
    Filter(tasks, DueOn(d))
  }

  /** A task is listed for a day exactly when it is due that day, whatever
      its status, and in list order; a task without a due date is listed on
      no day. */
  lemma TasksForDayMembership(tasks: seq<Task>, d: int, t: Task)
    ensures t in TasksForDay(tasks, d) <==> t in tasks && t.dueDate.Some? && DayOf(t.dueDate.value) == d
    ensures t.dueDate.None? ==> t !in TasksForDay(tasks, d)
    ensures IsSubsequence(TasksForDay(tasks, d), tasks)
  {
    FilterMembership(tasks, DueOn(d), t);
    FilterIsSubsequence(tasks, DueOn(d));
  }

  /** `getTaskCountForDay`. */
  function OpenCountForDay(tasks: seq<Task>, d: int): (n: nat)
    ensures n <= |tasks|
    ensures n == 0 <==> forall t :: t in tasks ==> !(t.dueDate.Some? && DayOf(t.dueDate.value) == d && t.status != Completed)
  {
    var open := Filter(tasks, OpenDueOn(d));
    assert |open| > 0 ==> open[0] in tasks && OpenDueOn(d)(open[0]);
    |open|
  }

  /** The count is the number of open tasks among the day's tasks, so it
      never exceeds their number, and undated tasks never count. */
  lemma OpenCountIsOpenTasksOfDay(tasks: seq<Task>, d: int)
    ensures OpenCountForDay(tasks, d) == Count(TasksForDay(tasks, d), IsOpen)
    ensures OpenCountForDay(tasks, d) <= |TasksForDay(tasks, d)|
    ensures OpenCountForDay(tasks, d) == OpenCountForDay(Filter(tasks, (t: Task) => t.dueDate.Some?), d)
  {
    FilterFilter(tasks, DueOn(d), IsOpen, OpenDueOn(d));
    var dated := (t: Task) => t.dueDate.Some?;
    FilterFilter(tasks, dated, OpenDueOn(d), OpenDueOn(d));
  }

  /** `currentStatus === 'completed' ? 'pending' : 'completed'`. */
  function ToggledStatus(s: TaskStatus): (r: TaskStatus)
    ensures r == Pending <==> s == Completed
    ensures r == Completed <==> s != Completed
    ensures r != InProgress
  {
    if s == Completed then Pending else Completed
  }

  /** Toggling twice restores a pending or completed task; an in-progress
      task comes back as pending. */
  lemma ToggledTwice(s: TaskStatus)
    ensures ToggledStatus(ToggledStatus(s)) == (if s == InProgress then Pending else s)
  {
  }

  /** `{ status: newStatus }`. */
  function StatusPatch(s: TaskStatus): TaskPatch {
    TaskPatch(None, None, None, Some(s), None, None, None, None, None, None)
  }

  /** Merging the toggle's patch changes the status and the update time and
      nothing else. */
  lemma StatusPatchChangesOnlyStatus(t: Task, s: TaskStatus, now: int)
    ensures MergeTask(t, StatusPatch(s), now) == t.(status := s, updatedAt := now)
  {
  }

  /** How a calendar cell is coloured. */
  datatype DayClass =
    | OutsideMonth
    | SelectedDay
    | TodayWithTasks | TodayFree
    | TomorrowWithTasks | TomorrowFree
    | WithTasks
    | Plain

  /** `getDayClass`: outside the month, then selected, then today, then
      tomorrow, then having open tasks, then nothing. */
  function DayClassOf(day: int, inCurrentMonth: bool, selected: Option<int>, today: int, openCount: nat): (c: DayClass)
    ensures c == OutsideMonth <==> !inCurrentMonth
    ensures c == SelectedDay <==> inCurrentMonth && selected == Some(day)
    ensures (c == TodayWithTasks || c == TodayFree) <==> inCurrentMonth && selected != Some(day) && day == today
    ensures (c == TomorrowWithTasks || c == TomorrowFree) <==>
              inCurrentMonth && selected != Some(day) && day == today + 1
    ensures c == WithTasks <==>
              inCurrentMonth && selected != Some(day) && day != today && day != today + 1 && openCount > 0
    ensures c in {TodayWithTasks, TomorrowWithTasks, WithTasks} ==> openCount > 0
    ensures c in {TodayFree, TomorrowFree, Plain} ==> openCount == 0
  {
    if !inCurrentMonth then OutsideMonth
    else if selected == Some(day) then SelectedDay
    else if day == today then (if openCount > 0 then TodayWithTasks else TodayFree)
    else if day == today + 1 then (if openCount > 0 then TomorrowWithTasks else TomorrowFree)
    else if openCount > 0 then WithTasks
    else Plain
  }

  /** One day of the upcoming preview: the first three tasks due that day
      and how many more there are. */
  datatype PreviewDay = PreviewDay(day: int, shown: seq<Task>, more: nat)

  /** One day of the preview: `dayTasks.slice(0, 3)` and the count behind
      "+N more". */
  function PreviewOf(tasks: seq<Task>, day: int): (p: PreviewDay)
    ensures p.day == day
    ensures |p.shown| + p.more == |TasksForDay(tasks, day)|
    ensures |p.shown| <= 3 && p.shown == TasksForDay(tasks, day)[..|p.shown|]
    ensures p.more > 0 <==> |TasksForDay(tasks, day)| > 3
  {
    var dayTasks := TasksForDay(tasks, day);
    if |dayTasks| > 3 then PreviewDay(day, dayTasks[..3], |dayTasks| - 3)
    else PreviewDay(day, dayTasks, 0)
  }

  /** Some task is due on day `d`. */
  predicate HasDue(tasks: seq<Task>, d: int) {
    TasksForDay(tasks, d) != []
  }

  /** The days among the `n` days from `first` that satisfy `due`, in
      order. */
  function DaysWhere(due: int -> bool, first: int, n: nat): (days: seq<int>)
    ensures |days| <= n
    ensures forall i :: 0 <= i < |days| ==> first <= days[i] < first + n
    ensures forall i, j :: 0 <= i < j < |days| ==> days[i] < days[j]
    ensures forall d :: first <= d < first + n ==> (d in days <==> due(d))
    decreases n
  {
    if n == 0 then []
    else
      var rest := DaysWhere(due, first + 1, n - 1);
      if due(first) then [first] + rest else rest
  }

  function DueDays(tasks: seq<Task>, first: int, n: nat): seq<int> {
    DaysWhere(d => HasDue(tasks, d), first, n)
  }

  /** `nextWeekDays.map(...)`: the seven days from today, days with nothing
      due rendering nothing. */
  function UpcomingPreview(tasks: seq<Task>, today: int): (r: seq<PreviewDay>)
    ensures |r| == |DueDays(tasks, today, 7)| <= 7
    ensures forall i :: 0 <= i < |r| ==> r[i] == PreviewOf(tasks, DueDays(tasks, today, 7)[i])
  {
    var days := DueDays(tasks, today, 7);
    seq(|days|, i requires 0 <= i < |days| => PreviewOf(tasks, days[i]))
  }

  /** The previewed days run from today to today + 6 in order and are
      exactly the days with a task due; there are none exactly when nothing
      is due in the seven days. */
  lemma UpcomingDays(tasks: seq<Task>, today: int)
    ensures var days := DueDays(tasks, today, 7);
            && (forall i, j :: 0 <= i < j < |days| ==> today <= days[i] < days[j] <= today + 6)
            && (forall d :: today <= d < today + 7 ==> (d in days <==> HasDue(tasks, d)))
            && (days == [] <==> forall d :: today <= d < today + 7 ==> !HasDue(tasks, d))
  {
    DaysWhereEmpty(d => HasDue(tasks, d), today, 7);
  }

  /** No day is picked exactly when no day of the span satisfies `due`. */
  lemma DaysWhereEmpty(due: int -> bool, first: int, n: nat)
    ensures DaysWhere(due, first, n) == [] <==> forall d :: first <= d < first + n ==> !due(d)
  {
    var days := DaysWhere(due, first, n);
    if days != [] {
      assert due(days[0]);
    }
  }

  /** What the toggle reports. */
  datatype Toast = SuccessToast | ErrorToast

  /** The visible month (counted in months), the selected day, and the
      completion toggle that goes through the task store. */
  class CalendarView {
    var currentMonth: int
    var selectedDate: Option<int>

    constructor (month: int)
      ensures currentMonth == month && selectedDate.None?
    {
      currentMonth := month;
      selectedDate := None;
    }

    method PrevMonth()
      modifies this
      ensures currentMonth == old(currentMonth) - 1 && selectedDate == old(selectedDate)
    {
      currentMonth := currentMonth - 1;
    }

    method NextMonth()
      modifies this
      ensures currentMonth == old(currentMonth) + 1 && selectedDate == old(selectedDate)
    {
      currentMonth := currentMonth + 1;
    }

    /** Clicking a cell selects its day. */
    method SelectDay(day: int)
      modifies this
      ensures selectedDate == Some(day) && currentMonth == old(currentMonth)
    {
      selectedDate := Some(day);
    }

    /** `handleToggleTaskStatus`: the new status is derived from the status
        the card shows; an unknown id makes the update throw, which ends in
        the error toast and no change; a failed remote write is reported by
        the store and still counts as success here. */
    method ToggleTaskStatus(store: TaskStore, taskId: string, currentStatus: TaskStatus, now: int, remoteOk: bool)
      returns (toast: Toast)
      modifies store
      ensures toast == SuccessToast <==> taskId in TaskIds(old(store.tasks))
      ensures taskId !in TaskIds(old(store.tasks)) ==> store.tasks == old(store.tasks)
      ensures taskId in TaskIds(old(store.tasks)) ==>
                var i := IndexOf(TaskIds(old(store.tasks)), taskId);
                store.tasks == old(store.tasks)[i := old(store.tasks)[i].(status := ToggledStatus(currentStatus), updatedAt := now)]
      ensures store.categories == old(store.categories) && store.user == old(store.user)
    {
      StatusPatchChangesOnlyStatus(if taskId in TaskIds(store.tasks) then store.tasks[IndexOf(TaskIds(store.tasks), taskId)] else
                                   Task("", "", None, Pending, Low, None, None, 0, 0, 0),
                                   ToggledStatus(currentStatus), now);
      var result := store.UpdateTask(taskId, StatusPatch(ToggledStatus(currentStatus)), now, remoteOk);
      toast := if result.NotFound? then ErrorToast else SuccessToast;
    }
  }
}
